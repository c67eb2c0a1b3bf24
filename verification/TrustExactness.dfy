/** Exactly which statements consolidation rewrites without a change of meaning, and requests on which
    the others change. */
module TrustExactness {
  import opened Text
  import opened TrustPolicy
  import opened TrustMeaning
  import opened Wildcards

  // ---------------------------------------------------------------------------
  // The rewritten form of a single statement
  // ---------------------------------------------------------------------------

  /** The statement on its own allows exactly what its rewritten form allows. */
  ghost predicate RewrittenExactly(s: Statement)
    requires Extract(s).Some?
  {
    forall r: Request, rest: RestMeaning ::
      (s.effect == "Allow" && Covers(s, r, rest)) <==>
      Covers(MergedFor([s], Extract(s).value.provider), r, rest)
  }

  lemma AloneCovers(s: Statement, r: Request, rest: RestMeaning)
    requires Extract(s).Some?
    ensures Covers(MergedFor([s], Extract(s).value.provider), r, rest) <==>
      r.action == WEB_IDENTITY && PatternAdmits(s, r.provider, r)
  {
    var p := Extract(s).value.provider;
    OneStatement(s, p);
    OneKeyAlone(s);
    MergedForCovers([s], p, r, rest);
    AdmitsAlone(s, p, r);
  }

  lemma OneKeyAlone(s: Statement)
    ensures OneKeyPerProvider([s])
  {
  }

  lemma AdmitsAlone(s: Statement, p: string, r: Request)
    ensures (exists t :: t in [s] && PatternAdmits(t, p, r)) <==> PatternAdmits(s, p, r)
    ensures PatternAdmits(s, r.provider, r) ==> ExtractsFor(s, r.provider)
  {
    assert s in [s];
  }

  lemma OnlyOne(ss: seq<Statement>, s: Statement, r: Request, rest: RestMeaning)
    requires ss == [s]
    ensures Admits(ss, r, rest) <==> s.effect == "Allow" && Covers(s, r, rest)
  {
    assert s in ss;
  }

  /** The consolidated form of a single SparkPilot statement admits what its merged form covers. */
  lemma AloneAdmits(s: Statement, r: Request, rest: RestMeaning)
    requires Extract(s).Some?
    ensures Admits(Consolidated([s]), r, rest) <==> r.action == WEB_IDENTITY && PatternAdmits(s, r.provider, r)
  {
    var p := Extract(s).value.provider;
    OneStatement(s, p);
    assert [p][..0] == [];
    assert Distinct([p]) == [p];
    assert MergedAll([s], [p]) == [MergedFor([s], p)];
    OnlyOne(Consolidated([s]), MergedFor([s], p), r, rest);
    AloneCovers(s, r, rest);
  }

  // ---------------------------------------------------------------------------
  // Exactly the canonical statements keep their meaning
  // ---------------------------------------------------------------------------

  /** The keys of a JSON object. */
  predicate UniqueKeys(entries: seq<Entry>) {
    forall i, j | 0 <= i < j < |entries| :: entries[i].key != entries[j].key
  }

  /** A SparkPilot statement keeps its meaning when rewritten if and only if it is canonical. */
  lemma ExactlyTheCanonicalOnes(s: Statement)
    requires Extract(s).Some?
    requires UniqueKeys(Entries(s.condition.stringLike)) && UniqueKeys(Entries(s.condition.stringEquals))
    ensures RewrittenExactly(s) <==> Canonical(s)
  {
    if Canonical(s) {
      forall r: Request, rest: RestMeaning
        ensures (s.effect == "Allow" && Covers(s, r, rest)) <==>
          Covers(MergedFor([s], Extract(s).value.provider), r, rest)
      {
        CanonicalCovers(s, r, rest);
        AloneCovers(s, r, rest);
      }
    }
    if RewrittenExactly(s) {
      ExactImpliesCanonical(s);
    }
  }

  /** A request the rewritten form admits: its own provider, and a subject one of its patterns matches. */
  function OwnRequest(s: Statement, subject: string): Request
    requires Extract(s).Some?
  {
    Request(WEB_IDENTITY, Extract(s).value.provider, map[Extract(s).value.subKey := subject])
  }

  /** Opaque parts that never hold. */
  function Never(): RestMeaning {
    (others, extra, r) => false
  }

  lemma OwnRequestIsCovered(s: Statement, v: string, subject: string)
    requires Extract(s).Some? && RewrittenExactly(s) && v in Extract(s).value.patterns && Glob(v, subject)
    ensures s.effect == "Allow" && Covers(s, OwnRequest(s, subject), Never())
  {
    assert PatternAdmits(s, Extract(s).value.provider, OwnRequest(s, subject));
    AloneCovers(s, OwnRequest(s, subject), Never());
  }

  lemma OnlyWebIdentity(s: Statement, v: string, a: string)
    requires Extract(s).Some? && RewrittenExactly(s) && Covers(s, OwnRequest(s, v), Never())
    requires s.effect == "Allow" && a in AsStrList(s.action)
    ensures a == WEB_IDENTITY
  {
    GlobReflexive(a);
    var asked := OwnRequest(s, v).(action := a);
    assert Covers(s, asked, Never());
    AloneCovers(s, asked, Never());
  }

  lemma OnlyOneProvider(s: Statement, v: string, f: string)
    requires Extract(s).Some? && RewrittenExactly(s) && Covers(s, OwnRequest(s, v), Never())
    requires s.effect == "Allow" && (HasFederatedPrincipal(s, f) || s.principal == PrincipalText("*"))
    ensures f == Extract(s).value.provider
  {
    var other := OwnRequest(s, v).(provider := f);
    assert Covers(s, other, Never());
    AloneCovers(s, other, Never());
  }

  /** A block that holds for a request with a single key has no entry of another key. */
  lemma OnlyOneKey(b: Block, like: bool, key: string, subject: string)
    requires UniqueKeys(Entries(b)) && BlockHolds(b, like, map[key := subject])
    ensures KeyedBy(Entries(b), key)
  {
    forall e | e in Entries(b) ensures e.key == key {
      assert EntryHolds(e, like, map[key := subject]);
    }
    AtMostOne(Entries(b), key);
  }

  lemma AtMostOne(entries: seq<Entry>, key: string)
    requires UniqueKeys(entries) && forall e | e in entries :: e.key == key
    ensures |entries| <= 1
  {
    var first, second := KeyAt(entries, 0), KeyAt(entries, 1);
    if second.Some? {
      assert false;
    }
  }

  function KeyAt(entries: seq<Entry>, i: nat): Option<string> {
    if i < |entries| then Some(entries[i].key) else None
  }

  /** Every text that a pattern matches is one of the StringEquals texts, and matched by StringLike. */
  lemma MatchedIsNamed(s: Statement, v: string, subject: string)
    requires Extract(s).Some? && RewrittenExactly(s) && v in Extract(s).value.patterns && Glob(v, subject)
    requires s.condition.Condition?
    requires KeyedBy(Entries(s.condition.stringLike), Extract(s).value.subKey)
    requires KeyedBy(Entries(s.condition.stringEquals), Extract(s).value.subKey)
    ensures Entries(s.condition.stringEquals) != [] ==> subject in TextsOf(Entries(s.condition.stringEquals))
    ensures Entries(s.condition.stringLike) != [] ==>
      exists w | w in TextsOf(Entries(s.condition.stringLike)) :: Glob(w, subject)
  {
    var key, context := Extract(s).value.subKey, OwnRequest(s, subject).context;
    OwnRequestIsCovered(s, v, subject);
    OneEntryHolds(Entries(s.condition.stringLike), key, s.condition.stringLike, true, context);
    OneEntryHolds(Entries(s.condition.stringEquals), key, s.condition.stringEquals, false, context);
  }

  /** A StringEquals block of a statement that keeps its meaning has no wildcards, and a StringLike
      block beside it has the same texts. */
  lemma EqualsAreLiteral(s: Statement)
    requires Extract(s).Some? && RewrittenExactly(s) && s.condition.Condition?
    requires KeyedBy(Entries(s.condition.stringLike), Extract(s).value.subKey)
    requires KeyedBy(Entries(s.condition.stringEquals), Extract(s).value.subKey)
    requires Entries(s.condition.stringEquals) != []
    ensures OneCondition(s.condition, Extract(s).value.subKey)
  {
    var likes, equals := TextsOf(Entries(s.condition.stringLike)), TextsOf(Entries(s.condition.stringEquals));
    var all := Extract(s).value.patterns;
    ConditionIsRead(s);
    forall v, t | v in all && Glob(v, t) ensures t in equals {
      MatchedIsNamed(s, v, t);
    }
    ClosedIsLiteral(all, equals);
    assert forall v :: v in equals ==> v in all;
    if Entries(s.condition.stringLike) != [] {
      forall l | l in likes ensures l in equals {
        GlobReflexive(l);
        MatchedIsNamed(s, l, l);
      }
      forall e | e in equals ensures e in likes {
        GlobReflexive(e);
        MatchedIsNamed(s, e, e);
        assert AllLiteral(likes);
        LiteralsMatch(likes, e);
      }
    }
  }

  lemma ExactImpliesCanonical(s: Statement)
    requires Extract(s).Some? && RewrittenExactly(s)
    requires UniqueKeys(Entries(s.condition.stringLike)) && UniqueKeys(Entries(s.condition.stringEquals))
    ensures Canonical(s)
  {
    ExtractIsProper(s);
    var v :| v in Extract(s).value.patterns;
    GlobReflexive(v);
    OwnRequestIsCovered(s, v, v);
    forall a | a in AsStrList(s.action) ensures a == WEB_IDENTITY {
      OnlyWebIdentity(s, v, a);
    }
    forall f | HasFederatedPrincipal(s, f) || s.principal == PrincipalText("*")
      ensures f == Extract(s).value.provider
    {
      OnlyOneProvider(s, v, f);
    }
    OneProviderNamed(s);
    OnlyOneKey(s.condition.stringLike, true, Extract(s).value.subKey, v);
    OnlyOneKey(s.condition.stringEquals, false, Extract(s).value.subKey, v);
    if Entries(s.condition.stringEquals) != [] {
      EqualsAreLiteral(s);
    }
    NothingElseWhenNever(s, OwnRequest(s, v));
  }

  lemma NothingElseWhenNever(s: Statement, r: Request)
    requires Covers(s, r, Never())
    ensures NothingElse(s)
  {
    assert !Never()(OtherOperators(s.condition), s.extra, r);
  }

  lemma OneProviderNamed(s: Statement)
    requires Extract(s).Some?
    requires forall f | HasFederatedPrincipal(s, f) || s.principal == PrincipalText("*") :: f == Extract(s).value.provider
    ensures NamesOneProvider(s)
  {
    if s.principal.PrincipalMap? {
      assert forall f | f in AsStrList(s.principal.federated) :: HasFederatedPrincipal(s, f);
    } else if s.principal == PrincipalText("*") {
      assert HasFederatedPrincipal(s, "someone") || s.principal == PrincipalText("*");
    }
  }

  // ---------------------------------------------------------------------------
  // Requests on which the others change
  // ---------------------------------------------------------------------------

  /** Once consolidated, a SparkPilot statement admits a call with any subject its patterns match. */
  lemma RewrittenAdmitsOwn(s: Statement, v: string, subject: string, rest: RestMeaning)
    requires Extract(s).Some? && v in Extract(s).value.patterns && Glob(v, subject)
    ensures Admits(Consolidated([s]), OwnRequest(s, subject), rest)
  {
    assert PatternAdmits(s, Extract(s).value.provider, OwnRequest(s, subject));
    AloneAdmits(s, OwnRequest(s, subject), rest);
  }

  /** A Deny becomes an Allow: what the statement was there to refuse is admitted. */
  lemma DenyBecomesAllow(s: Statement, v: string, rest: RestMeaning)
    requires Extract(s).Some? && s.effect == "Deny" && v in Extract(s).value.patterns
    ensures !Admits([s], OwnRequest(s, v), rest) && Admits(Consolidated([s]), OwnRequest(s, v), rest)
  {
    GlobReflexive(v);
    RewrittenAdmitsOwn(s, v, v, rest);
    OnlyOne([s], s, OwnRequest(s, v), rest);
  }

  /** The statement asks for more than its sub key: another key in either block, or another operator or
      member that does not hold. */
  predicate AsksForMore(s: Statement, r: Request, rest: RestMeaning)
    requires Extract(s).Some?
  {
    || (s.condition.Condition? && exists e :: e in Entries(s.condition.stringLike) && e.key != Extract(s).value.subKey)
    || (s.condition.Condition? && exists e :: e in Entries(s.condition.stringEquals) && e.key != Extract(s).value.subKey)
    || (!NothingElse(s) && !rest(OtherOperators(s.condition), s.extra, r))
  }

  /** Every further condition is dropped: the rewritten policy admits a call that supplies the sub key
      alone, and the original refuses it. */
  lemma FurtherConditionIsDropped(s: Statement, v: string, rest: RestMeaning)
    requires Extract(s).Some? && v in Extract(s).value.patterns && AsksForMore(s, OwnRequest(s, v), rest)
    ensures !Admits([s], OwnRequest(s, v), rest) && Admits(Consolidated([s]), OwnRequest(s, v), rest)
  {
    var r := OwnRequest(s, v);
    GlobReflexive(v);
    RewrittenAdmitsOwn(s, v, v, rest);
    OnlyOne([s], s, r, rest);
    assert forall e: Entry, like: bool | e.key != Extract(s).value.subKey :: !EntryHolds(e, like, r.context);
  }

  /** SparkPilot's own shape with a StringEquals block, or with a list of federated principals. */
  function Equalling(provider: string, key: string, pattern: string): Statement {
    Statement("Allow", One(WEB_IDENTITY), PrincipalMap(One(provider), map[]),
              Condition(NoBlock, Block([Entry(key, One(pattern))]), map[]), map[])
  }

  function ForProviders(providers: seq<string>, key: string, pattern: string): Statement {
    Statement("Allow", One(WEB_IDENTITY), PrincipalMap(Many(providers), map[]),
              Condition(Block([Entry(key, One(pattern))]), NoBlock, map[]), map[])
  }

  lemma EquallingExtracts(provider: string, key: string, pattern: string)
    requires provider != "" && EndsWith(key, SUB_SUFFIX) && Contains(pattern, SA_MARKER)
    ensures Extract(Equalling(provider, key, pattern)) == Some(Extracted(provider, key, [pattern]))
  {
    var s := Equalling(provider, key, pattern);
    var e := Entry(key, One(pattern));
    OneEntry(e);
    assert StatementSubEntries(s) == [e];
    assert AsStrList(s.action) == [WEB_IDENTITY];
    assert pattern in [pattern];
    ExtractOf(s, provider, e, [pattern]);
  }

  lemma ForProvidersExtracts(providers: seq<string>, key: string, pattern: string)
    requires providers != [] && providers[0] != "" && EndsWith(key, SUB_SUFFIX) && Contains(pattern, SA_MARKER)
    ensures Extract(ForProviders(providers, key, pattern)) == Some(Extracted(providers[0], key, [pattern]))
  {
    var s := ForProviders(providers, key, pattern);
    var e := Entry(key, One(pattern));
    OneBlock(s, e);
    assert AsStrList(s.action) == [WEB_IDENTITY];
    assert pattern in [pattern];
    ExtractOf(s, providers[0], e, [pattern]);
  }

  /** StringEquals becomes StringLike: a star in it, which stood for itself, now stands for any text. */
  lemma EqualsBecomesLike(provider: string, key: string, before: string, after: string, fill: string, rest: RestMeaning)
    requires provider != "" && EndsWith(key, SUB_SUFFIX) && Contains(before + "*" + after, SA_MARKER) && fill != "*"
    ensures var s := Equalling(provider, key, before + "*" + after);
      var r := Request(WEB_IDENTITY, provider, map[key := before + fill + after]);
      !Admits([s], r, rest) && Admits(Consolidated([s]), r, rest)
  {
    FilledMatches(before, after, fill);
    OtherTexts(before, after, fill);
    EqualsRefuses(provider, key, before + "*" + after, before + fill + after, rest);
    EqualsRewritten(provider, key, before + "*" + after, before + fill + after, rest);
  }

  lemma FilledMatches(before: string, after: string, fill: string)
    ensures Glob(before + "*" + after, before + fill + after)
  {
    var pattern := before + "*" + after;
    StarMatches(pattern, |before|, fill);
    assert pattern[..|before|] == before && pattern[|before| + 1..] == after;
  }

  lemma EqualsRewritten(provider: string, key: string, pattern: string, subject: string, rest: RestMeaning)
    requires provider != "" && EndsWith(key, SUB_SUFFIX) && Contains(pattern, SA_MARKER) && Glob(pattern, subject)
    ensures Admits(Consolidated([Equalling(provider, key, pattern)]),
                   Request(WEB_IDENTITY, provider, map[key := subject]), rest)
  {
    EquallingExtracts(provider, key, pattern);
    RewrittenAdmitsOwn(Equalling(provider, key, pattern), pattern, subject, rest);
  }

  lemma OtherTexts(before: string, after: string, fill: string)
    requires fill != "*"
    ensures before + "*" + after != before + fill + after
  {
    var a, b := before + "*" + after, before + fill + after;
    if |fill| == 1 {
      assert a[|before|] == '*' && b[|before|] == fill[0] && fill == [fill[0]];
    } else {
      assert |a| != |b|;
    }
  }

  lemma EqualsRefuses(provider: string, key: string, pattern: string, subject: string, rest: RestMeaning)
    requires pattern != subject
    ensures !Admits([Equalling(provider, key, pattern)], Request(WEB_IDENTITY, provider, map[key := subject]), rest)
  {
    var s := Equalling(provider, key, pattern);
    var e := Entry(key, One(pattern));
    assert e in Entries(s.condition.stringEquals) && !EntryHolds(e, false, map[key := subject]);
    OnlyOne([s], s, Request(WEB_IDENTITY, provider, map[key := subject]), rest);
  }

  /** Only the first federated principal is kept: a call of the second one's, admitted before, is refused. */
  lemma SecondProviderIsDropped(first: string, second: string, key: string, pattern: string, rest: RestMeaning)
    requires first != "" && second != first && EndsWith(key, SUB_SUFFIX) && Contains(pattern, SA_MARKER)
    ensures var s := ForProviders([first, second], key, pattern);
      var r := Request(WEB_IDENTITY, second, map[key := pattern]);
      Admits([s], r, rest) && !Admits(Consolidated([s]), r, rest)
  {
    var s := ForProviders([first, second], key, pattern);
    var r := Request(WEB_IDENTITY, second, map[key := pattern]);
    ForProvidersExtracts([first, second], key, pattern);
    AloneAdmits(s, r, rest);
    ForProvidersCovers([first, second], key, pattern, second, rest);
    OnlyOne([s], s, r, rest);
  }

  lemma ForProvidersCovers(providers: seq<string>, key: string, pattern: string, provider: string, rest: RestMeaning)
    requires provider in providers
    ensures Covers(ForProviders(providers, key, pattern), Request(WEB_IDENTITY, provider, map[key := pattern]), rest)
  {
    var s := ForProviders(providers, key, pattern);
    OneTextHolds(key, pattern);
    ActionCovers(s, WEB_IDENTITY, Request(WEB_IDENTITY, provider, map[key := pattern]), rest);
  }

  lemma ActionCovers(s: Statement, action: string, r: Request, rest: RestMeaning)
    requires s.action == One(action) && r.action == action && HasFederatedPrincipal(s, r.provider) && NothingElse(s)
    requires s.condition.Condition?
    requires BlockHolds(s.condition.stringLike, true, r.context) && BlockHolds(s.condition.stringEquals, false, r.context)
    ensures Covers(s, r, rest)
  {
    GlobReflexive(action);
    assert action in AsStrList(s.action);
  }

  lemma OneTextHolds(key: string, pattern: string)
    ensures BlockHolds(Block([Entry(key, One(pattern))]), true, map[key := pattern])
    ensures BlockHolds(NoBlock, false, map[key := pattern])
  {
    GlobReflexive(pattern);
    assert pattern in AsStrList(One(pattern));
    assert EntryHolds(Entry(key, One(pattern)), true, map[key := pattern]);
  }

  /** Two statements of one provider under different keys, each canonical: consolidation keeps the first
      key only, and a call that supplies the second one's subject, admitted before, is refused. */
  lemma SecondKeyIsDropped(provider: string, key1: string, key2: string, pattern1: string, pattern2: string, rest: RestMeaning)
    requires provider != "" && EndsWith(key1, SUB_SUFFIX) && EndsWith(key2, SUB_SUFFIX) && key1 != key2
    requires Contains(pattern1, SA_MARKER) && Contains(pattern2, SA_MARKER)
    ensures var s, t := MergedStatement(provider, key1, [pattern1]), MergedStatement(provider, key2, [pattern2]);
      var r := Request(WEB_IDENTITY, provider, map[key2 := pattern2]);
      Canonical(s) && Canonical(t) && Admits([s, t], r, rest) && !Admits(Consolidated([s, t]), r, rest)
  {
    var s, t := MergedStatement(provider, key1, [pattern1]), MergedStatement(provider, key2, [pattern2]);
    WrittenIsCanonical(provider, key1, [pattern1]);
    WrittenIsCanonical(provider, key2, [pattern2]);
    WrittenIsAllow(provider, key1, pattern1);
    WrittenIsAllow(provider, key2, pattern2);
    SecondIsAdmitted(s, t, provider, key2, pattern2, rest);
    SecondIsRefused(s, t, provider, key1, key2, pattern1, pattern2, rest);
  }

  lemma SecondIsRefused(s: Statement, t: Statement, provider: string, key1: string, key2: string, pattern1: string,
                        pattern2: string, rest: RestMeaning)
    requires s == MergedStatement(provider, key1, [pattern1]) && t == MergedStatement(provider, key2, [pattern2])
    requires provider != "" && EndsWith(key1, SUB_SUFFIX) && EndsWith(key2, SUB_SUFFIX) && key1 != key2
    requires Contains(pattern1, SA_MARKER) && Contains(pattern2, SA_MARKER)
    ensures !Admits(Consolidated([s, t]), Request(WEB_IDENTITY, provider, map[key2 := pattern2]), rest)
  {
    WrittenExtracts(provider, key1, pattern1);
    WrittenExtracts(provider, key2, pattern2);
    OthersAreRefused(s, t, Extracted(provider, key1, [pattern1]), Extracted(provider, key2, [pattern2]),
                     Request(WEB_IDENTITY, provider, map[key2 := pattern2]), rest);
  }

  lemma OthersAreRefused(s: Statement, t: Statement, x: Extracted, y: Extracted, r: Request, rest: RestMeaning)
    requires Extract(s) == Some(x) && Extract(t) == Some(y) && x.provider == y.provider && x.subKey !in r.context
    ensures !Admits(Consolidated([s, t]), r, rest)
  {
    TwoTrails(s, t, x, [s, t]);
    TwoOfOne(s, t, x, y, [s, t]);
    forall u | u in Consolidated([s, t]) ensures !Covers(u, r, rest) {
      FirstKeyOnly([s, t], x.provider, x.subKey, u, r, rest);
    }
  }

  lemma WrittenExtracts(provider: string, key: string, pattern: string)
    requires provider != "" && EndsWith(key, SUB_SUFFIX) && Contains(pattern, SA_MARKER)
    ensures Extract(MergedStatement(provider, key, [pattern])) == Some(Extracted(provider, key, [pattern]))
  {
    assert pattern in [pattern];
    MergedExtracts(provider, key, [pattern]);
  }

  predicate IsAllow(s: Statement) {
    s.effect == "Allow"
  }

  lemma WrittenIsAllow(provider: string, key: string, pattern: string)
    ensures IsAllow(MergedStatement(provider, key, [pattern]))
  {
  }

  lemma SecondIsAdmitted(s: Statement, t: Statement, provider: string, key: string, pattern: string, rest: RestMeaning)
    requires t == MergedStatement(provider, key, [pattern]) && IsAllow(s) && IsAllow(t)
    ensures Admits([s, t], Request(WEB_IDENTITY, provider, map[key := pattern]), rest)
  {
    GlobReflexive(pattern);
    assert pattern in [pattern];
    MergedStatementCovers(provider, key, [pattern], Request(WEB_IDENTITY, provider, map[key := pattern]), rest);
    assert t in [s, t];
  }

  /** Every statement is read as one of the provider's. */
  predicate OneProviderOnly(ss: seq<Statement>, provider: string) {
    forall s | s in ss :: ExtractsFor(s, provider)
  }

  lemma TwoTrails(s: Statement, t: Statement, x: Extracted, ss: seq<Statement>)
    requires ss == [s, t] && Extract(s) == Some(x)
    ensures SubKey(ss, x.provider) == Some(x.subKey)
  {
    KeyOfOne(s, x);
    SubKeyConcat([s], [t], x.provider);
    assert [s] + [t] == ss;
  }

  lemma KeyOfOne(s: Statement, x: Extracted)
    requires Extract(s) == Some(x)
    ensures SubKey([s], x.provider) == Some(x.subKey)
  {
    OneStatement(s, x.provider);
  }

  lemma TwoOfOne(s: Statement, t: Statement, x: Extracted, y: Extracted, ss: seq<Statement>)
    requires ss == [s, t] && Extract(s) == Some(x) && Extract(t) == Some(y) && x.provider == y.provider
    ensures OneProviderOnly(ss, x.provider)
  {
  }

  /** What consolidation makes of them asks for the first one's key. */
  lemma FirstKeyOnly(ss: seq<Statement>, provider: string, key: string, u: Statement, r: Request, rest: RestMeaning)
    requires OneProviderOnly(ss, provider) && SubKey(ss, provider) == Some(key)
    requires u in Consolidated(ss) && key !in r.context
    ensures !Covers(u, r, rest)
  {
    OnlyWritten(ss, provider, u);
    MergedStatementCovers(provider, key, Distinct(PatternTrail(ss, provider)), r, rest);
  }

  lemma OnlyWritten(ss: seq<Statement>, provider: string, u: Statement)
    requires OneProviderOnly(ss, provider) && u in Consolidated(ss)
    ensures u == MergedFor(ss, provider)
  {
    ConsolidatedMembers(ss, u);
    if u in ss {
      assert ExtractsFor(u, provider);
    }
    if p :| p in ProviderTrail(ss) && u == MergedFor(ss, p) {
      TrailMembers(ss, p);
    }
  }
}
