/** The rewriting of an IAM role trust policy: de-duplication, one new web-identity grant,
    consolidation to one SparkPilot statement per OIDC provider, and the separate reader. */
module TrustPolicy {
  import opened Text

  const WEB_IDENTITY := "sts:AssumeRoleWithWebIdentity"
  const SA_MARKER := "emr-containers-sa-"
  const SUB_SUFFIX := ":sub"

  // ---------------------------------------------------------------------------
  // Statements
  // ---------------------------------------------------------------------------

  /** A policy value: missing, one text, or a list of texts. */
  datatype TextOrList = Absent | One(text: string) | Many(items: seq<string>)

  datatype Principal =
    | NoPrincipal
    | PrincipalText(text: string)
    | PrincipalMap(federated: TextOrList, others: map<string, TextOrList>)

  datatype Entry = Entry(key: string, values: TextOrList)

  /** A condition operator's block; the entries keep the order of the JSON object. */
  datatype Block = NoBlock | Block(entries: seq<Entry>)

  /** `others` holds the operators besides StringLike and StringEquals, as opaque text. */
  datatype Condition =
    | NoCondition
    | Condition(stringLike: Block, stringEquals: Block, others: map<string, string>)

  /** `extra` holds the remaining members of the statement (Sid, NotAction, ...), as opaque text. */
  datatype Statement = Statement(
    effect: string,
    action: TextOrList,
    principal: Principal,
    condition: Condition,
    extra: map<string, string>)

  function AsStrList(v: TextOrList): seq<string> {
    match v
    case Absent => []
    case One(t) => [t]
    case Many(ts) => ts
  }

  predicate HasAction(s: Statement, action: string) {
    action in AsStrList(s.action)
  }

  predicate HasFederatedPrincipal(s: Statement, provider: string) {
    match s.principal
    case NoPrincipal => false
    case PrincipalText(t) => t == provider
    case PrincipalMap(federated, _) => provider in AsStrList(federated)
  }

  function Entries(b: Block): seq<Entry> {
    if b.Block? then b.entries else []
  }

  /** `block.get(key)` followed by `_as_str_list`. */
  function Lookup(entries: seq<Entry>, key: string): seq<string> {
    if entries == [] then []
    else if entries[0].key == key then AsStrList(entries[0].values)
    else Lookup(entries[1..], key)
  }

  function SubPatternsUnder(s: Statement, providerPath: string): seq<string> {
    if s.condition.NoCondition? then []
    else
      Lookup(Entries(s.condition.stringLike), providerPath + SUB_SUFFIX) +
      Lookup(Entries(s.condition.stringEquals), providerPath + SUB_SUFFIX)
  }

  /** The entries whose key ends in ":sub", in order. */
  function SubEntries(entries: seq<Entry>): seq<Entry> {
    if entries == [] then []
    else
      var last := entries[|entries| - 1];
      SubEntries(entries[..|entries| - 1]) + (if EndsWith(last.key, SUB_SUFFIX) then [last] else [])
  }

  function StatementSubEntries(s: Statement): seq<Entry> {
    if s.condition.NoCondition? then []
    else SubEntries(Entries(s.condition.stringLike)) + SubEntries(Entries(s.condition.stringEquals))
  }

  function Values(entries: seq<Entry>): seq<string> {
    if entries == [] then []
    else Values(entries[..|entries| - 1]) + AsStrList(entries[|entries| - 1].values)
  }

  predicate IsSparkPilotStatement(s: Statement) {
    HasAction(s, WEB_IDENTITY) &&
    exists v | v in Values(StatementSubEntries(s)) :: Contains(v, SA_MARKER)
  }

  function ProviderArn(s: Statement): Option<string> {
    match s.principal
    case NoPrincipal => None
    case PrincipalText(t) => Some(t)
    case PrincipalMap(federated, _) =>
      var fs := AsStrList(federated);
      if fs == [] then None else Some(fs[0])
  }

  // ---------------------------------------------------------------------------
  // Extraction: what consolidation reads out of a SparkPilot statement
  // ---------------------------------------------------------------------------

  datatype Extracted = Extracted(provider: string, subKey: string, patterns: seq<string>)

  function Extract(s: Statement): Option<Extracted> {
    if !IsSparkPilotStatement(s) then None
    else
      var provider := ProviderArn(s);
      if provider.None? || provider.value == "" then None
      else
        var subs := StatementSubEntries(s);
        if subs == [] then None else Some(Extracted(provider.value, subs[0].key, Values(subs)))
  }

  predicate ExtractsFor(s: Statement, provider: string) {
    Extract(s).Some? && Extract(s).value.provider == provider
  }

  function Retained(ss: seq<Statement>): seq<Statement> {
    if ss == [] then []
    else
      var last := ss[|ss| - 1];
      Retained(ss[..|ss| - 1]) + (if Extract(last).None? then [last] else [])
  }

  /** The provider of each SparkPilot statement, in order. */
  function ProviderTrail(ss: seq<Statement>): seq<string> {
    if ss == [] then []
    else
      var last := ss[|ss| - 1];
      ProviderTrail(ss[..|ss| - 1]) + (if Extract(last).Some? then [Extract(last).value.provider] else [])
  }

  /** The sub key of the first SparkPilot statement of `provider`. */
  function SubKey(ss: seq<Statement>, provider: string): Option<string> {
    if ss == [] then None
    else
      var last := ss[|ss| - 1];
      var before := SubKey(ss[..|ss| - 1], provider);
      if before.Some? then before
      else if ExtractsFor(last, provider) then Some(Extract(last).value.subKey)
      else None
  }

  /** The patterns of every SparkPilot statement of `provider`, concatenated in order. */
  function PatternTrail(ss: seq<Statement>, provider: string): seq<string> {
    if ss == [] then []
    else
      var last := ss[|ss| - 1];
      PatternTrail(ss[..|ss| - 1], provider) + PatternsFor(last, provider)
  }

  /** The first occurrences of a list, in order. */
  function Distinct(xs: seq<string>): seq<string> {
    if xs == [] then []
    else
      var before := Distinct(xs[..|xs| - 1]);
      if xs[|xs| - 1] in before then before else before + [xs[|xs| - 1]]
  }

  function MergedStatement(provider: string, subKey: string, patterns: seq<string>): Statement {
    Statement(
      "Allow",
      One(WEB_IDENTITY),
      PrincipalMap(One(provider), map[]),
      Condition(
        Block([Entry(subKey, if |patterns| == 1 then One(patterns[0]) else Many(patterns))]),
        NoBlock,
        map[]),
      map[])
  }

  function MergedFor(ss: seq<Statement>, provider: string): Statement {
    var key := SubKey(ss, provider);
    MergedStatement(provider, if key.Some? then key.value else "", Distinct(PatternTrail(ss, provider)))
  }

  function MergedAll(ss: seq<Statement>, providers: seq<string>): seq<Statement> {
    if providers == [] then []
    else
      MergedAll(ss, providers[..|providers| - 1]) + [MergedFor(ss, providers[|providers| - 1])]
  }

  /** The consolidated list: the other statements first, then one statement per provider. */
  function Consolidated(ss: seq<Statement>): seq<Statement> {
    Retained(ss) + MergedAll(ss, Distinct(ProviderTrail(ss)))
  }

  /** The extracted relation: which (provider, pattern) pairs the SparkPilot statements carry. */
  ghost function Grants(ss: seq<Statement>): iset<(string, string)> {
    iset p, x | x in PatternTrail(ss, p) :: (p, x)
  }

  // ---------------------------------------------------------------------------
  // Laws of the list functions
  // ---------------------------------------------------------------------------

  lemma SplitLast<T>(a: seq<T>, b: seq<T>)
    requires b != []
    ensures (a + b)[..|a + b| - 1] == a + b[..|b| - 1]
    ensures (a + b)[|a + b| - 1] == b[|b| - 1]
  {
  }

  lemma ConcatLaws(a: seq<Statement>, b: seq<Statement>, provider: string)
    ensures Retained(a + b) == Retained(a) + Retained(b)
    ensures ProviderTrail(a + b) == ProviderTrail(a) + ProviderTrail(b)
    ensures PatternTrail(a + b, provider) == PatternTrail(a, provider) + PatternTrail(b, provider)
    ensures SubKey(a + b, provider) == if SubKey(a, provider).Some? then SubKey(a, provider) else SubKey(b, provider)
  {
    RetainedConcat(a, b);
    ProviderTrailConcat(a, b);
    PatternTrailConcat(a, b, provider);
    SubKeyConcat(a, b, provider);
  }

  lemma {:induction false} RetainedConcat(a: seq<Statement>, b: seq<Statement>)
    ensures Retained(a + b) == Retained(a) + Retained(b)
  {
    if b == [] {
      assert a + b == a;
    } else {
      var init, last := b[..|b| - 1], b[|b| - 1];
      SplitLast(a, b);
      RetainedConcat(a, init);
      RetainedStep(a + init, last, a + b);
      RetainedStep(init, last, b);
      Associative(Retained(a), Retained(init), Kept(last));
    }
  }

  function Kept(s: Statement): seq<Statement> {
    if Extract(s).None? then [s] else []
  }

  lemma RetainedStep(init: seq<Statement>, last: Statement, ss: seq<Statement>)
    requires ss != [] && ss[..|ss| - 1] == init && ss[|ss| - 1] == last
    ensures Retained(ss) == Retained(init) + Kept(last)
  {
  }

  lemma {:induction false} ProviderTrailConcat(a: seq<Statement>, b: seq<Statement>)
    ensures ProviderTrail(a + b) == ProviderTrail(a) + ProviderTrail(b)
  {
    if b == [] {
      assert a + b == a;
    } else {
      SplitLast(a, b);
      ProviderTrailConcat(a, b[..|b| - 1]);
    }
  }

  lemma {:induction false} PatternTrailConcat(a: seq<Statement>, b: seq<Statement>, provider: string)
    ensures PatternTrail(a + b, provider) == PatternTrail(a, provider) + PatternTrail(b, provider)
  {
    if b == [] {
      assert a + b == a;
    } else {
      var init, last := b[..|b| - 1], b[|b| - 1];
      PatternTrailConcat(a, init, provider);
      SplitLast(a, b);
      PatternTrailStep(a + init, last, provider, a + b);
      PatternTrailStep(init, last, provider, b);
      Associative(PatternTrail(a, provider), PatternTrail(init, provider), PatternsFor(last, provider));
    }
  }

  function PatternsFor(s: Statement, provider: string): seq<string> {
    if ExtractsFor(s, provider) then Extract(s).value.patterns else []
  }

  lemma PatternTrailStep(init: seq<Statement>, last: Statement, provider: string, ss: seq<Statement>)
    requires ss != [] && ss[..|ss| - 1] == init && ss[|ss| - 1] == last
    ensures PatternTrail(ss, provider) == PatternTrail(init, provider) + PatternsFor(last, provider)
  {
  }

  lemma {:induction false} SubKeyConcat(a: seq<Statement>, b: seq<Statement>, provider: string)
    ensures SubKey(a + b, provider) == if SubKey(a, provider).Some? then SubKey(a, provider) else SubKey(b, provider)
  {
    if b == [] {
      assert a + b == a;
    } else {
      SplitLast(a, b);
      SubKeyConcat(a, b[..|b| - 1], provider);
    }
  }

  lemma {:induction false} ValuesConcat(a: seq<Entry>, b: seq<Entry>)
    ensures Values(a + b) == Values(a) + Values(b)
  {
    if b == [] {
      assert a + b == a;
    } else {
      SplitLast(a, b);
      ValuesConcat(a, b[..|b| - 1]);
    }
  }

  /** What is read from a block's entries: the ":sub" ones in order, and all their values in order. */
  lemma {:induction false} SubEntriesLaws(a: seq<Entry>, b: seq<Entry>, e: Entry)
    ensures SubEntries([]) == [] && SubEntries([e]) == if EndsWith(e.key, ":sub") then [e] else []
    ensures SubEntries(a + b) == SubEntries(a) + SubEntries(b)
    ensures Values([]) == [] && Values([e]) == AsStrList(e.values)
    ensures Values(a + b) == Values(a) + Values(b)
  {
    assert [e][..0] == [];
    ValuesConcat(a, b);
    if b == [] {
      assert a + b == a;
    } else {
      var init, last := b[..|b| - 1], b[|b| - 1];
      SplitLast(a, b);
      SubEntriesLaws(a, init, e);
      Associative(SubEntries(a), SubEntries(init), if EndsWith(last.key, SUB_SUFFIX) then [last] else []);
    }
  }

  /** `Distinct` keeps exactly the elements, each once, and is the identity on repeat-free lists. */
  lemma {:induction false} DistinctLaws(xs: seq<string>)
    ensures NoRepeats(Distinct(xs))
    ensures forall x :: x in Distinct(xs) <==> x in xs
    ensures NoRepeats(xs) ==> Distinct(xs) == xs
  {
    if xs != [] {
      var init, last := xs[..|xs| - 1], xs[|xs| - 1];
      DistinctLaws(init);
      assert xs == init + [last];
      if NoRepeats(xs) {
        assert forall i | 0 <= i < |init| :: init[i] == xs[i];
        assert last !in init;
      }
    }
  }

  lemma {:induction false} RetainedExtractNothing(ss: seq<Statement>, provider: string)
    ensures forall s | s in Retained(ss) :: s in ss && Extract(s).None?
    ensures forall s | s in ss && Extract(s).None? :: s in Retained(ss)
    ensures ProviderTrail(Retained(ss)) == [] && PatternTrail(Retained(ss), provider) == []
    ensures SubKey(Retained(ss), provider) == None && Retained(Retained(ss)) == Retained(ss)
  {
    if ss != [] {
      var init, last := ss[..|ss| - 1], ss[|ss| - 1];
      assert ss == init + [last];
      RetainedExtractNothing(init, provider);
      if Extract(last).None? {
        ConcatLaws(Retained(init), [last], provider);
        OneStatement(last, provider);
      } else {
        assert Retained(ss) == Retained(init);
      }
    }
  }

  lemma OneMore(ss: seq<Statement>, s: Statement, p: string)
    ensures Retained(ss + [s]) == if Extract(s).None? then Retained(ss) + [s] else Retained(ss)
    ensures ProviderTrail(ss + [s]) ==
      if Extract(s).Some? then ProviderTrail(ss) + [Extract(s).value.provider] else ProviderTrail(ss)
    ensures PatternTrail(ss + [s], p) ==
      if ExtractsFor(s, p) then PatternTrail(ss, p) + Extract(s).value.patterns else PatternTrail(ss, p)
    ensures SubKey(ss + [s], p) ==
      if SubKey(ss, p).None? && ExtractsFor(s, p) then Some(Extract(s).value.subKey) else SubKey(ss, p)
  {
    SplitLast(ss, [s]);
    assert ss + [s][..0] == ss;
  }

  lemma OneStatement(s: Statement, provider: string)
    ensures Retained([s]) == if Extract(s).None? then [s] else []
    ensures ProviderTrail([s]) == if Extract(s).Some? then [Extract(s).value.provider] else []
    ensures PatternTrail([s], provider) == if ExtractsFor(s, provider) then Extract(s).value.patterns else []
    ensures SubKey([s], provider) == if ExtractsFor(s, provider) then Some(Extract(s).value.subKey) else None
  {
    assert [s][..0] == [];
  }

  /** Membership in the trails, in terms of the statements themselves. */
  lemma TrailMembers(ss: seq<Statement>, provider: string)
    ensures provider in ProviderTrail(ss) <==> exists s :: s in ss && ExtractsFor(s, provider)
    ensures forall x :: x in PatternTrail(ss, provider) <==>
      exists s :: s in ss && ExtractsFor(s, provider) && x in Extract(s).value.patterns
    ensures provider in ProviderTrail(ss) <==> SubKey(ss, provider).Some?
    ensures SubKey(ss, provider).Some? ==>
      exists s :: s in ss && ExtractsFor(s, provider) && Extract(s).value.subKey == SubKey(ss, provider).value
  {
    PatternTrailMembers(ss, provider);
    SubKeyMembers(ss, provider);
  }

  lemma {:induction false} PatternTrailMembers(ss: seq<Statement>, provider: string)
    ensures forall x :: x in PatternTrail(ss, provider) <==>
      exists s :: s in ss && ExtractsFor(s, provider) && x in Extract(s).value.patterns
  {
    if ss != [] {
      var init, last := ss[..|ss| - 1], ss[|ss| - 1];
      assert ss == init + [last];
      PatternTrailMembers(init, provider);
    }
  }

  lemma {:induction false} SubKeyMembers(ss: seq<Statement>, provider: string)
    ensures provider in ProviderTrail(ss) <==> SubKey(ss, provider).Some?
    ensures SubKey(ss, provider).Some? ==>
      exists s :: s in ss && ExtractsFor(s, provider) && Extract(s).value.subKey == SubKey(ss, provider).value
    ensures (exists s :: s in ss && ExtractsFor(s, provider)) ==> SubKey(ss, provider).Some?
  {
    if ss != [] {
      var init, last := ss[..|ss| - 1], ss[|ss| - 1];
      assert ss == init + [last];
      SubKeyMembers(init, provider);
      if SubKey(init, provider).Some? {
        var s :| s in init && ExtractsFor(s, provider) && Extract(s).value.subKey == SubKey(init, provider).value;
        assert s in ss;
      } else if ExtractsFor(last, provider) {
        assert last in ss;
      }
    }
  }

  /** What an extraction always carries: a provider, a ":sub" key and a SparkPilot pattern. */
  lemma ExtractIsProper(s: Statement)
    requires Extract(s).Some?
    ensures Extract(s).value.provider != ""
    ensures EndsWith(Extract(s).value.subKey, SUB_SUFFIX)
    ensures exists v :: v in Extract(s).value.patterns && Contains(v, SA_MARKER)
  {
    if s.condition.Condition? {
      SubEntriesKeys(Entries(s.condition.stringLike));
      SubEntriesKeys(Entries(s.condition.stringEquals));
    }
    var subs := StatementSubEntries(s);
    assert subs[0] in subs;
  }

  lemma {:induction false} SubEntriesKeys(entries: seq<Entry>)
    ensures forall e :: e in SubEntries(entries) <==> e in entries && EndsWith(e.key, SUB_SUFFIX)
  {
    if entries != [] {
      SubEntriesKeys(entries[..|entries| - 1]);
      assert entries == entries[..|entries| - 1] + [entries[|entries| - 1]];
    }
  }

  /** The reader's view of a merged statement is exactly what was written into it. */
  lemma MergedExtracts(provider: string, subKey: string, patterns: seq<string>)
    requires provider != "" && EndsWith(subKey, SUB_SUFFIX)
    requires exists v :: v in patterns && Contains(v, SA_MARKER)
    ensures Extract(MergedStatement(provider, subKey, patterns)) == Some(Extracted(provider, subKey, patterns))
  {
    var s := MergedStatement(provider, subKey, patterns);
    var e := s.condition.stringLike.entries[0];
    MergedParts(provider, subKey, patterns);
    OneBlock(s, e);
    ExtractOf(s, provider, e, patterns);
  }

  lemma MergedParts(provider: string, subKey: string, patterns: seq<string>)
    ensures var s := MergedStatement(provider, subKey, patterns);
      && HasAction(s, WEB_IDENTITY) && ProviderArn(s) == Some(provider)
      && AsStrList(s.condition.stringLike.entries[0].values) == patterns
  {
    assert AsStrList(MergedStatement(provider, subKey, patterns).action) == [WEB_IDENTITY];
  }

  lemma ExtractOf(s: Statement, provider: string, e: Entry, patterns: seq<string>)
    requires HasAction(s, WEB_IDENTITY) && ProviderArn(s) == Some(provider) && provider != ""
    requires StatementSubEntries(s) == [e] && Values(StatementSubEntries(s)) == patterns
    requires exists v :: v in patterns && Contains(v, SA_MARKER)
    ensures Extract(s) == Some(Extracted(provider, e.key, patterns))
  {
  }

  lemma OneBlock(s: Statement, e: Entry)
    requires s.condition == Condition(Block([e]), NoBlock, map[]) && EndsWith(e.key, SUB_SUFFIX)
    ensures StatementSubEntries(s) == [e] && Values(StatementSubEntries(s)) == AsStrList(e.values)
  {
    OneEntry(e);
  }

  lemma OneEntry(e: Entry)
    requires EndsWith(e.key, SUB_SUFFIX)
    ensures SubEntries([e]) == [e] && SubEntries([]) == []
    ensures Values([e]) == AsStrList(e.values)
  {
    assert [e][..0] == [];
  }

  /** A merged statement built from a list extracts that list's provider, key and distinct patterns. */
  lemma MergedForExtracts(ss: seq<Statement>, provider: string)
    requires provider in ProviderTrail(ss)
    ensures SubKey(ss, provider).Some?
    ensures Extract(MergedFor(ss, provider)) ==
      Some(Extracted(provider, SubKey(ss, provider).value, Distinct(PatternTrail(ss, provider))))
  {
    TrailMembers(ss, provider);
    var s :| s in ss && ExtractsFor(s, provider) && Extract(s).value.subKey == SubKey(ss, provider).value;
    ExtractIsProper(s);
    var v :| v in Extract(s).value.patterns && Contains(v, SA_MARKER);
    assert v in PatternTrail(ss, provider);
    DistinctLaws(PatternTrail(ss, provider));
    MergedExtracts(provider, SubKey(ss, provider).value, Distinct(PatternTrail(ss, provider)));
  }

  /** A SparkPilot statement joins a list. */
  lemma TrailsGrow(before: seq<Statement>, m: Statement, all: seq<Statement>, x: Extracted, p: string)
    requires all == before + [m] && Extract(m) == Some(x)
    ensures Retained(all) == Retained(before) && ProviderTrail(all) == ProviderTrail(before) + [x.provider]
    ensures PatternTrail(all, p) == PatternTrail(before, p) + if x.provider == p then x.patterns else []
    ensures SubKey(all, p) == if SubKey(before, p).None? && x.provider == p then Some(x.subKey) else SubKey(before, p)
  {
    OneMore(before, m, p);
  }

  lemma {:induction false} MergedAllTrails(ss: seq<Statement>, providers: seq<string>, provider: string)
    requires NoRepeats(providers) && forall p | p in providers :: p in ProviderTrail(ss)
    ensures Retained(MergedAll(ss, providers)) == []
    ensures ProviderTrail(MergedAll(ss, providers)) == providers
    ensures PatternTrail(MergedAll(ss, providers), provider) ==
      if provider in providers then Distinct(PatternTrail(ss, provider)) else []
    ensures SubKey(MergedAll(ss, providers), provider) ==
      if provider in providers then SubKey(ss, provider) else None
  {
    if providers != [] {
      var init, last := providers[..|providers| - 1], providers[|providers| - 1];
      assert providers == init + [last] && last !in init;
      MergedAllTrails(ss, init, provider);
      MergedForExtracts(ss, last);
      var written := MergedFor(ss, last);
      TrailsGrow(MergedAll(ss, init), written, MergedAll(ss, providers), Extract(written).value, provider);
    }
  }

  // ---------------------------------------------------------------------------
  // Consolidation: what it keeps, for any list at all
  // ---------------------------------------------------------------------------

  /** For every list: the other statements come first, unchanged and in order; the providers, their
      keys and their distinct patterns are those of the input. */
  lemma ConsolidatedTrails(ss: seq<Statement>, provider: string)
    ensures Retained(Consolidated(ss)) == Retained(ss)
    ensures ProviderTrail(Consolidated(ss)) == Distinct(ProviderTrail(ss))
    ensures PatternTrail(Consolidated(ss), provider) == Distinct(PatternTrail(ss, provider))
    ensures SubKey(Consolidated(ss), provider) == SubKey(ss, provider)
  {
    var providers := Distinct(ProviderTrail(ss));
    DistinctLaws(ProviderTrail(ss));
    MergedAllTrails(ss, providers, provider);
    RetainedExtractNothing(ss, provider);
    ConcatLaws(Retained(ss), MergedAll(ss, providers), provider);
    TrailMembers(ss, provider);
    NoTrailNoPatterns(ss, provider);
  }

  /** The extracted relation survives consolidation, with no precondition on the list. */
  lemma ConsolidationKeepsGrants(ss: seq<Statement>)
    ensures Grants(Consolidated(ss)) == Grants(ss)
  {
    forall p, x ensures (p, x) in Grants(Consolidated(ss)) <==> (p, x) in Grants(ss) {
      ConsolidatedTrails(ss, p);
      DistinctLaws(PatternTrail(ss, p));
    }
  }

  /** Afterwards each provider has one SparkPilot statement and each of its patterns occurs once. */
  lemma ConsolidationIsTight(ss: seq<Statement>, provider: string)
    ensures NoRepeats(ProviderTrail(Consolidated(ss)))
    ensures provider in ProviderTrail(Consolidated(ss)) <==> provider in ProviderTrail(ss)
    ensures NoRepeats(PatternTrail(Consolidated(ss), provider))
  {
    ConsolidatedTrails(ss, provider);
    DistinctLaws(ProviderTrail(ss));
    DistinctLaws(PatternTrail(ss, provider));
  }

  lemma {:induction false} MergedAllCongruence(ss: seq<Statement>, tt: seq<Statement>, providers: seq<string>)
    requires forall p | p in providers :: MergedFor(ss, p) == MergedFor(tt, p)
    ensures MergedAll(ss, providers) == MergedAll(tt, providers)
  {
    if providers != [] {
      assert providers == providers[..|providers| - 1] + [providers[|providers| - 1]];
      MergedAllCongruence(ss, tt, providers[..|providers| - 1]);
    }
  }

  /** Consolidating twice is consolidating once, for every list. */
  lemma ConsolidationIsIdempotent(ss: seq<Statement>)
    ensures Consolidated(Consolidated(ss)) == Consolidated(ss)
  {
    var tt := Consolidated(ss);
    var providers := Distinct(ProviderTrail(ss));
    DistinctLaws(ProviderTrail(ss));
    ConsolidatedTrails(ss, "");
    DistinctLaws(providers);
    forall p | p in providers ensures MergedFor(tt, p) == MergedFor(ss, p) {
      ConsolidatedTrails(ss, p);
      DistinctLaws(PatternTrail(ss, p));
      DistinctLaws(Distinct(PatternTrail(ss, p)));
    }
    MergedAllCongruence(tt, ss, providers);
  }

  // ---------------------------------------------------------------------------
  // The loops of the source
  // ---------------------------------------------------------------------------

  /** One operator's block: extends the accumulated key and patterns. */
  method ReadBlock(entries: seq<Entry>, key0: Option<string>, patterns0: seq<string>, ghost before: seq<Entry>)
    returns (subKey: Option<string>, patterns: seq<string>)
    requires patterns0 == Values(before) && key0 == FirstKey(before)
    ensures patterns == Values(before + SubEntries(entries)) && subKey == FirstKey(before + SubEntries(entries))
  {
    subKey, patterns := key0, patterns0;
    assert before + SubEntries([]) == before;
    for i := 0 to |entries|
      invariant patterns == Values(before + SubEntries(entries[..i]))
      invariant subKey == FirstKey(before + SubEntries(entries[..i]))
    {
      ReadOneMore(before, entries, i);
      if EndsWith(entries[i].key, SUB_SUFFIX) {
        if subKey.None? {
          subKey := Some(entries[i].key);
        }
        patterns := patterns + AsStrList(entries[i].values);
      }
    }
    assert entries[..|entries|] == entries;
  }

  lemma ReadOneMore(before: seq<Entry>, entries: seq<Entry>, i: nat)
    requires i < |entries|
    ensures
      var read, next := before + SubEntries(entries[..i]), before + SubEntries(entries[..i + 1]);
      if EndsWith(entries[i].key, SUB_SUFFIX) then
        && Values(next) == Values(read) + AsStrList(entries[i].values)
        && FirstKey(next) == if FirstKey(read).None? then Some(entries[i].key) else FirstKey(read)
      else
        next == read
  {
    var read, next := before + SubEntries(entries[..i]), before + SubEntries(entries[..i + 1]);
    assert entries[..i + 1][..i] == entries[..i];
    if EndsWith(entries[i].key, SUB_SUFFIX) {
      assert next == read + [entries[i]];
      SplitLast(read, [entries[i]]);
      assert next[..|next| - 1] == read;
    }
  }

  function FirstKey(entries: seq<Entry>): Option<string> {
    if entries == [] then None else Some(entries[0].key)
  }

  /** Reads the ":sub" key and the patterns, StringLike before StringEquals. */
  method SubPatternsFromTrustStatement(s: Statement) returns (subKey: Option<string>, patterns: seq<string>)
    ensures patterns == Values(StatementSubEntries(s)) && subKey == FirstKey(StatementSubEntries(s))
  {
    subKey, patterns := None, [];
    if s.condition.Condition? {
      ghost var likes := SubEntries(Entries(s.condition.stringLike));
      subKey, patterns := ReadBlock(Entries(s.condition.stringLike), subKey, patterns, []);
      assert [] + likes == likes;
      subKey, patterns := ReadBlock(Entries(s.condition.stringEquals), subKey, patterns, likes);
    }
  }

  /** Appends the patterns not seen before; `trail` is every pattern met so far. */
  method AddPatterns(known0: seq<string>, seen0: set<string>, patterns: seq<string>, ghost trail: seq<string>)
    returns (known: seq<string>, seen: set<string>)
    requires known0 == Distinct(trail) && SameElements(seen0, known0)
    ensures known == Distinct(trail + patterns) && SameElements(seen, known)
  {
    known, seen := known0, seen0;
    assert trail + patterns[..0] == trail;
    for k := 0 to |patterns|
      invariant known == Distinct(trail + patterns[..k])
      invariant SameElements(seen, known)
    {
      ghost var met := trail + patterns[..k];
      assert trail + patterns[..k + 1] == met + [patterns[k]];
      DistinctPush(met, patterns[k]);
      if patterns[k] !in seen {
        seen := seen + {patterns[k]};
        known := known + [patterns[k]];
      }
    }
    assert patterns[..|patterns|] == patterns;
  }

  lemma DistinctPush(xs: seq<string>, x: string)
    ensures Distinct(xs + [x]) == if x in Distinct(xs) then Distinct(xs) else Distinct(xs) + [x]
  {
    assert (xs + [x])[..|xs|] == xs;
  }

  ghost predicate SameElements(xs: set<string>, ys: seq<string>) {
    forall x :: x in xs <==> x in ys
  }

  /** The dictionaries' entry for one provider: present exactly for the providers met so far, and
      then what the list functions say of the statements read so far. */
  ghost predicate Tracks(ss: seq<Statement>, p: string, met: bool, subKeys: map<string, string>,
                         patterns: map<string, seq<string>>, seen: map<string, set<string>>)
  {
    if met then
      && p in subKeys && p in patterns && p in seen
      && SubKey(ss, p) == Some(subKeys[p])
      && patterns[p] == Distinct(PatternTrail(ss, p))
      && SameElements(seen[p], patterns[p])
    else
      && p !in subKeys && p !in patterns && p !in seen
      && SubKey(ss, p) == None && PatternTrail(ss, p) == []
  }

  ghost predicate Gathered(ss: seq<Statement>, retained: seq<Statement>, providers: seq<string>,
                           subKeys: map<string, string>, patterns: map<string, seq<string>>,
                           seen: map<string, set<string>>)
  {
    && retained == Retained(ss)
    && providers == Distinct(ProviderTrail(ss))
    && forall p :: Tracks(ss, p, p in providers, subKeys, patterns, seen)
  }

  lemma GatheredSkips(ss: seq<Statement>, s: Statement, retained: seq<Statement>, providers: seq<string>,
                      subKeys: map<string, string>, patterns: map<string, seq<string>>,
                      seen: map<string, set<string>>)
    requires Gathered(ss, retained, providers, subKeys, patterns, seen) && Extract(s).None?
    ensures Gathered(ss + [s], retained + [s], providers, subKeys, patterns, seen)
  {
    forall p ensures Tracks(ss + [s], p, p in providers, subKeys, patterns, seen) {
      OneMore(ss, s, p);
      assert Tracks(ss, p, p in providers, subKeys, patterns, seen);
    }
    OneMore(ss, s, "");
  }

  lemma GatheredTakes(ss: seq<Statement>, s: Statement, retained: seq<Statement>, providers: seq<string>,
                      subKeys: map<string, string>, patterns: map<string, seq<string>>,
                      seen: map<string, set<string>>, known: seq<string>, met: set<string>)
    requires Gathered(ss, retained, providers, subKeys, patterns, seen) && Extract(s).Some?
    requires known == Distinct(PatternTrail(ss, Extract(s).value.provider) + Extract(s).value.patterns)
    requires SameElements(met, known)
    ensures
      var p := Extract(s).value.provider;
      Gathered(ss + [s], retained, if p in providers then providers else providers + [p],
               if p in subKeys then subKeys else subKeys[p := Extract(s).value.subKey],
               patterns[p := known], seen[p := met])
  {
    var p := Extract(s).value.provider;
    var providers' := if p in providers then providers else providers + [p];
    var subKeys' := if p in subKeys then subKeys else subKeys[p := Extract(s).value.subKey];
    OneMore(ss, s, p);
    DistinctPush(ProviderTrail(ss), p);
    forall q ensures Tracks(ss + [s], q, q in providers', subKeys', patterns[p := known], seen[p := met]) {
      assert Tracks(ss, q, q in providers, subKeys, patterns, seen);
      TracksTakes(ss, s, q, providers, subKeys, patterns, seen, known, met);
    }
  }

  lemma TracksTakes(ss: seq<Statement>, s: Statement, q: string, providers: seq<string>, subKeys: map<string, string>,
                    patterns: map<string, seq<string>>, seen: map<string, set<string>>, known: seq<string>, met: set<string>)
    requires Extract(s).Some? && Tracks(ss, q, q in providers, subKeys, patterns, seen)
    requires known == Distinct(PatternTrail(ss, Extract(s).value.provider) + Extract(s).value.patterns)
    requires SameElements(met, known)
    ensures
      var p := Extract(s).value.provider;
      Tracks(ss + [s], q, q in if p in providers then providers else providers + [p],
             if p in subKeys then subKeys else subKeys[p := Extract(s).value.subKey], patterns[p := known], seen[p := met])
  {
    OneMore(ss, s, q);
  }

  /** The consolidation loop over its dictionaries; `providers` is the insertion order of the
      pattern dictionary. */
  method ConsolidateStatements(statements: seq<Statement>) returns (result: seq<Statement>)
    ensures result == Consolidated(statements)
  {
    var retained: seq<Statement> := [];
    var providers: seq<string> := [];
    var providerSubKey: map<string, string> := map[];
    var providerPatterns: map<string, seq<string>> := map[];
    var providerPatternsSeen: map<string, set<string>> := map[];
    for i := 0 to |statements|
      invariant Gathered(statements[..i], retained, providers, providerSubKey, providerPatterns, providerPatternsSeen)
    {
      assert statements[..i + 1] == statements[..i] + [statements[i]];
      var stmt := statements[i];
      ghost var soFar := statements[..i];
      var provider := ProviderArn(stmt);
      if !IsSparkPilotStatement(stmt) || provider.None? || provider.value == "" {
        GatheredSkips(soFar, stmt, retained, providers, providerSubKey, providerPatterns, providerPatternsSeen);
        retained := retained + [stmt];
      } else {
        var subKey, patterns := SubPatternsFromTrustStatement(stmt);
        if subKey.None? {
          GatheredSkips(soFar, stmt, retained, providers, providerSubKey, providerPatterns, providerPatternsSeen);
          retained := retained + [stmt];
        } else {
          var p := provider.value;
          assert Tracks(soFar, p, p in providers, providerSubKey, providerPatterns, providerPatternsSeen);
          var known := if p in providerPatterns then providerPatterns[p] else [];
          var seen := if p in providerPatternsSeen then providerPatternsSeen[p] else {};
          known, seen := AddPatterns(known, seen, patterns, PatternTrail(soFar, p));
          GatheredTakes(soFar, stmt, retained, providers, providerSubKey, providerPatterns, providerPatternsSeen,
                        known, seen);
          if p !in providerPatterns {
            providers := providers + [p];
            providerSubKey := providerSubKey[p := subKey.value];
          }
          providerPatterns := providerPatterns[p := known];
          providerPatternsSeen := providerPatternsSeen[p := seen];
        }
      }
    }
    assert statements[..|statements|] == statements;
    result := AppendMerged(statements, retained, providers, providerSubKey, providerPatterns, providerPatternsSeen);
  }

  lemma TrackedIsMerged(ss: seq<Statement>, p: string, met: bool, subKeys: map<string, string>,
                        patterns: map<string, seq<string>>, seen: map<string, set<string>>)
    requires met && Tracks(ss, p, met, subKeys, patterns, seen)
    ensures MergedFor(ss, p) == MergedStatement(p, subKeys[p], patterns[p])
  {
  }

  lemma GatheredIsMerged(ss: seq<Statement>, retained: seq<Statement>, providers: seq<string>,
                         subKeys: map<string, string>, patterns: map<string, seq<string>>,
                         seen: map<string, set<string>>, p: string)
    requires Gathered(ss, retained, providers, subKeys, patterns, seen) && p in providers
    ensures p in subKeys && p in patterns && MergedFor(ss, p) == MergedStatement(p, subKeys[p], patterns[p])
  {
    TrackedIsMerged(ss, p, p in providers, subKeys, patterns, seen);
  }

  lemma MergedAllStep(ss: seq<Statement>, providers: seq<string>, i: nat)
    requires i < |providers|
    ensures MergedAll(ss, providers[..i + 1]) == MergedAll(ss, providers[..i]) + [MergedFor(ss, providers[i])]
  {
    assert providers[..i + 1][..i] == providers[..i];
  }

  /** The closing loop: one merged statement per provider, in the dictionary's order. */
  method AppendMerged(ghost statements: seq<Statement>, retained: seq<Statement>, providers: seq<string>,
                      subKeys: map<string, string>, patterns: map<string, seq<string>>,
                      ghost seen: map<string, set<string>>)
    returns (result: seq<Statement>)
    requires Gathered(statements, retained, providers, subKeys, patterns, seen)
    ensures result == Consolidated(statements)
  {
    result := retained;
    for i := 0 to |providers|
      invariant result == retained + MergedAll(statements, providers[..i])
    {
      var p := providers[i];
      GatheredIsMerged(statements, retained, providers, subKeys, patterns, seen, p);
      MergedAllStep(statements, providers, i);
      Associative(retained, MergedAll(statements, providers[..i]), [MergedFor(statements, p)]);
      result := result + [MergedStatement(p, subKeys[p], patterns[p])];
    }
    assert providers[..|providers|] == providers;
  }

  lemma NoTrailNoPatterns(ss: seq<Statement>, provider: string)
    ensures provider !in ProviderTrail(ss) ==> PatternTrail(ss, provider) == []
  {
    TrailMembers(ss, provider);
    if provider !in ProviderTrail(ss) && PatternTrail(ss, provider) != [] {
      assert PatternTrail(ss, provider)[0] in PatternTrail(ss, provider);
      assert false;
    }
  }
}
