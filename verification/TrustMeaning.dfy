/** What a trust policy admits, and what consolidation does to it. */
module TrustMeaning {
  import opened Text
  import opened TrustPolicy
  import opened Wildcards

  /** A federated call: the action asked for, the identity provider behind the token, and the
      condition keys the token supplies (such as "<provider path>:sub"). */
  datatype Request = Request(action: string, provider: string, context: map<string, string>)

  /** The meaning of the parts the model keeps opaque (other condition operators, other members of
      the statement): any predicate of them and the request. */
  type RestMeaning = (map<string, string>, map<string, string>, Request) -> bool

  predicate EntryHolds(e: Entry, like: bool, context: map<string, string>) {
    e.key in context &&
    exists v | v in AsStrList(e.values) :: if like then Glob(v, context[e.key]) else v == context[e.key]
  }

  predicate BlockHolds(b: Block, like: bool, context: map<string, string>) {
    forall e | e in Entries(b) :: EntryHolds(e, like, context)
  }

  function OtherOperators(c: Condition): map<string, string> {
    if c.Condition? then c.others else map[]
  }

  /** Nothing besides the modelled parts restricts the statement; a Sid is only a name. */
  predicate NothingElse(s: Statement) {
    OtherOperators(s.condition) == map[] && s.extra.Keys <= {"Sid"}
  }

  predicate Covers(s: Statement, r: Request, rest: RestMeaning) {
    && (exists a | a in AsStrList(s.action) :: Glob(a, r.action))
    && (HasFederatedPrincipal(s, r.provider) || s.principal == PrincipalText("*"))
    && (s.condition.Condition? ==>
      && BlockHolds(s.condition.stringLike, true, r.context)
      && BlockHolds(s.condition.stringEquals, false, r.context))
    && (NothingElse(s) || rest(OtherOperators(s.condition), s.extra, r))
  }

  /** Some statement with this effect covers the request. */
  predicate Applies(ss: seq<Statement>, effect: string, r: Request, rest: RestMeaning) {
    exists s | s in ss :: s.effect == effect && Covers(s, r, rest)
  }

  /** A request passes when some statement allows it and none denies it. */
  predicate Admits(ss: seq<Statement>, r: Request, rest: RestMeaning) {
    Applies(ss, "Allow", r, rest) && !Applies(ss, "Deny", r, rest)
  }

  // ---------------------------------------------------------------------------
  // Which policies consolidation is exact on
  // ---------------------------------------------------------------------------

  /** The principal names one provider and nobody else. */
  predicate OneProvider(principal: Principal) {
    match principal
    case NoPrincipal => true
    case PrincipalText(t) => t != "*"
    case PrincipalMap(federated, _) =>
      forall f | f in AsStrList(federated) :: f == AsStrList(federated)[0]
  }

  predicate NamesOneProvider(s: Statement) {
    Extract(s).Some? ==> OneProvider(s.principal)
  }

  function TextsOf(entries: seq<Entry>): seq<string> {
    if entries == [] then [] else AsStrList(entries[0].values)
  }

  predicate KeyedBy(entries: seq<Entry>, key: string) {
    |entries| <= 1 && forall e | e in entries :: e.key == key
  }

  /** The modelled condition only says that one key has one of some texts: in a StringLike block, or
      without wildcards in a StringEquals block, or in both with the same texts. */
  predicate OneCondition(c: Condition, key: string) {
    && c.Condition?
    && KeyedBy(Entries(c.stringLike), key) && KeyedBy(Entries(c.stringEquals), key)
    && (Entries(c.stringEquals) != [] ==> AllLiteral(TextsOf(Entries(c.stringEquals))))
    && (Entries(c.stringLike) != [] && Entries(c.stringEquals) != [] ==>
          SameTexts(TextsOf(Entries(c.stringLike)), TextsOf(Entries(c.stringEquals))))
  }

  /** The shape SparkPilot itself writes: Allow, the web-identity action alone, one federated provider,
      one ":sub" condition and nothing else; or that condition said with StringEquals. */
  predicate Canonical(s: Statement) {
    Extract(s).Some? ==>
      && s.effect == "Allow"
      && (forall a | a in AsStrList(s.action) :: a == WEB_IDENTITY)
      && NamesOneProvider(s)
      && OneCondition(s.condition, Extract(s).value.subKey)
      && NothingElse(s)
  }

  /** Statements of one provider are keyed alike. */
  predicate OneKeyPerProvider(ss: seq<Statement>) {
    forall s, t | s in ss && t in ss && Extract(s).Some? && Extract(t).Some? ::
      Extract(s).value.provider == Extract(t).value.provider ==>
      Extract(s).value.subKey == Extract(t).value.subKey
  }

  // ---------------------------------------------------------------------------
  // Meaning of the pieces
  // ---------------------------------------------------------------------------

  /** A merged statement admits a web-identity call of its provider whose sub key matches one of
      its patterns, and nothing else. */
  lemma MergedStatementCovers(provider: string, key: string, patterns: seq<string>, r: Request, rest: RestMeaning)
    ensures Covers(MergedStatement(provider, key, patterns), r, rest) <==>
      && r.action == WEB_IDENTITY
      && r.provider == provider
      && key in r.context
      && exists v | v in patterns :: Glob(v, r.context[key])
  {
    var s := MergedStatement(provider, key, patterns);
    var e := s.condition.stringLike.entries[0];
    assert AsStrList(e.values) == patterns;
    assert forall x | x in Entries(s.condition.stringLike) :: x == e;
    assert e in Entries(s.condition.stringLike);
    assert AsStrList(s.action) == [WEB_IDENTITY];
    GlobReflexive(WEB_IDENTITY);
    WebIdentityIsLiteral(r.action);
    assert BlockHolds(s.condition.stringEquals, false, r.context);
    assert NothingElse(s);
    assert HasFederatedPrincipal(s, r.provider) <==> r.provider == provider;
    assert BlockHolds(s.condition.stringLike, true, r.context) <==> EntryHolds(e, true, r.context);
  }

  lemma WebIdentityIsLiteral(action: string)
    ensures Glob(WEB_IDENTITY, action) <==> action == WEB_IDENTITY
  {
    LiteralGlob(WEB_IDENTITY, action);
  }

  lemma {:induction false} MergedAllMembers(ss: seq<Statement>, providers: seq<string>)
    ensures forall s :: s in MergedAll(ss, providers) <==> exists p :: p in providers && s == MergedFor(ss, p)
  {
    if providers != [] {
      var init, last := providers[..|providers| - 1], providers[|providers| - 1];
      assert providers == init + [last];
      MergedAllMembers(ss, init);
    }
  }

  /** A member of the consolidated list is a statement that was not SparkPilot's, or the merged
      statement of one of the providers. */
  lemma ConsolidatedMembers(ss: seq<Statement>, s: Statement)
    ensures s in Consolidated(ss) <==>
      || (s in ss && Extract(s).None?)
      || exists p :: p in ProviderTrail(ss) && s == MergedFor(ss, p)
  {
    RetainedExtractNothing(ss, "");
    DistinctLaws(ProviderTrail(ss));
    MergedAllMembers(ss, Distinct(ProviderTrail(ss)));
  }

  /** The merged statement of a provider covers a request exactly when some SparkPilot statement of
      that provider carries a pattern the request's subject matches. */
  lemma MergedForCovers(ss: seq<Statement>, p: string, r: Request, rest: RestMeaning)
    requires p in ProviderTrail(ss) && OneKeyPerProvider(ss)
    ensures Covers(MergedFor(ss, p), r, rest) <==>
      r.action == WEB_IDENTITY && r.provider == p && exists s :: s in ss && PatternAdmits(s, p, r)
  {
    SubKeyMembers(ss, p);
    PatternTrailMembers(ss, p);
    DistinctLaws(PatternTrail(ss, p));
    var key, patterns := SubKey(ss, p).value, Distinct(PatternTrail(ss, p));
    MergedStatementCovers(p, key, patterns, r, rest);
    var first :| first in ss && ExtractsFor(first, p) && Extract(first).value.subKey == key;
    if key in r.context && exists v | v in patterns :: Glob(v, r.context[key]) {
      var v :| v in patterns && Glob(v, r.context[key]);
      var s :| s in ss && ExtractsFor(s, p) && v in Extract(s).value.patterns;
      assert PatternAdmits(s, p, r);
    }
    if s :| s in ss && PatternAdmits(s, p, r) {
      assert Extract(s).value.subKey == key;
    }
  }

  /** The grant a SparkPilot statement is read as. */
  predicate PatternAdmits(s: Statement, p: string, r: Request) {
    && ExtractsFor(s, p)
    && Extract(s).value.subKey in r.context
    && exists v | v in Extract(s).value.patterns :: Glob(v, r.context[Extract(s).value.subKey])
  }

  // ---------------------------------------------------------------------------
  // Consolidation never narrows, and is exact on canonical policies
  // ---------------------------------------------------------------------------

  /** A SparkPilot statement that covers a web-identity call is read as a grant admitting it. */
  lemma CoveringIsRead(s: Statement, r: Request, rest: RestMeaning)
    requires Extract(s).Some? && NamesOneProvider(s) && Covers(s, r, rest)
    ensures PatternAdmits(s, r.provider, r)
  {
    assert ExtractsFor(s, r.provider);
    var likes, equals := Entries(s.condition.stringLike), Entries(s.condition.stringEquals);
    SubEntriesKeys(likes);
    SubEntriesKeys(equals);
    var subs := StatementSubEntries(s);
    var e := subs[0];
    ValuesOfFirst(subs);
    if SubEntries(likes) != [] {
      assert e in SubEntries(likes);
      assert EntryHolds(e, true, r.context);
    } else {
      assert subs == SubEntries(equals);
      assert e in SubEntries(equals);
      assert EntryHolds(e, false, r.context);
      var v :| v in AsStrList(e.values) && v == r.context[e.key];
      GlobReflexive(v);
    }
  }

  lemma {:induction false} ValuesOfFirst(entries: seq<Entry>)
    requires entries != []
    ensures forall v | v in AsStrList(entries[0].values) :: v in Values(entries)
  {
    if |entries| > 1 {
      ValuesOfFirst(entries[..|entries| - 1]);
    } else {
      assert entries[..0] == [];
    }
  }

  /** Whatever a policy admits for web identity it still admits after consolidation, as soon as its
      SparkPilot statements name one provider each and agree on the key; no condition on effects,
      operators or further conditions. */
  lemma ConsolidationNeverNarrows(ss: seq<Statement>, r: Request, rest: RestMeaning)
    requires forall s | s in ss :: NamesOneProvider(s)
    requires OneKeyPerProvider(ss)
    requires r.action == WEB_IDENTITY
    ensures Admits(ss, r, rest) ==> Admits(Consolidated(ss), r, rest)
  {
    if Admits(ss, r, rest) {
      var s :| s in ss && s.effect == "Allow" && Covers(s, r, rest);
      if Extract(s).None? {
        ConsolidatedMembers(ss, s);
      } else {
        CoveringIsRead(s, r, rest);
        SubKeyMembers(ss, r.provider);
        MergedForCovers(ss, r.provider, r, rest);
        ConsolidatedMembers(ss, MergedFor(ss, r.provider));
      }
      forall t | t in Consolidated(ss) ensures !(t.effect == "Deny" && Covers(t, r, rest)) {
        ConsolidatedMembers(ss, t);
      }
    }
  }

  /** A canonical SparkPilot statement covers exactly what it is read as. */
  lemma CanonicalCovers(s: Statement, r: Request, rest: RestMeaning)
    requires Extract(s).Some? && Canonical(s)
    ensures Covers(s, r, rest) <==> r.action == WEB_IDENTITY && PatternAdmits(s, r.provider, r)
  {
    CanonicalConditions(s, r);
    CanonicalCaller(s, r);
  }

  lemma AtMostOneEntry(entries: seq<Entry>, key: string)
    requires KeyedBy(entries, key) && EndsWith(key, SUB_SUFFIX)
    ensures SubEntries(entries) == entries && Values(entries) == TextsOf(entries)
  {
    if entries != [] {
      assert entries == [entries[0]];
      OneEntry(entries[0]);
    }
  }

  /** All of the condition is read, and nothing more. */
  lemma ConditionIsRead(s: Statement)
    requires Extract(s).Some? && s.condition.Condition?
    requires KeyedBy(Entries(s.condition.stringLike), Extract(s).value.subKey)
    requires KeyedBy(Entries(s.condition.stringEquals), Extract(s).value.subKey)
    ensures Extract(s).value.patterns == TextsOf(Entries(s.condition.stringLike)) + TextsOf(Entries(s.condition.stringEquals))
  {
    var likes, equals := Entries(s.condition.stringLike), Entries(s.condition.stringEquals);
    ExtractIsProper(s);
    AtMostOneEntry(likes, Extract(s).value.subKey);
    AtMostOneEntry(equals, Extract(s).value.subKey);
    ValuesConcat(likes, equals);
  }

  lemma OneEntryHolds(entries: seq<Entry>, key: string, b: Block, like: bool, context: map<string, string>)
    requires entries == Entries(b) && KeyedBy(entries, key)
    ensures entries == [] ==> BlockHolds(b, like, context)
    ensures entries != [] ==>
      (BlockHolds(b, like, context) <==>
        key in context &&
        exists v | v in TextsOf(entries) :: if like then Glob(v, context[key]) else v == context[key])
  {
    if entries != [] {
      var e := entries[0];
      assert entries == [e] && e in entries && TextsOf(entries) == AsStrList(e.values);
      assert BlockHolds(b, like, context) <==> EntryHolds(e, like, context);
      if EntryHolds(e, like, context) {
        var v :| v in AsStrList(e.values) && if like then Glob(v, context[key]) else v == context[key];
        assert v in TextsOf(entries);
      }
    }
  }

  lemma CanonicalConditions(s: Statement, r: Request)
    requires Extract(s).Some? && Canonical(s)
    ensures BlockHolds(s.condition.stringLike, true, r.context) && BlockHolds(s.condition.stringEquals, false, r.context) <==>
      PatternAdmits(s, Extract(s).value.provider, r)
  {
    var key := Extract(s).value.subKey;
    var likes, equals := Entries(s.condition.stringLike), Entries(s.condition.stringEquals);
    ConditionIsRead(s);
    OneEntryHolds(likes, key, s.condition.stringLike, true, r.context);
    OneEntryHolds(equals, key, s.condition.stringEquals, false, r.context);
    ExtractIsProper(s);
    if key in r.context {
      TextsHold(likes == [], TextsOf(likes), equals == [], TextsOf(equals), Extract(s).value.patterns, r.context[key]);
    }
  }

  /** One text against the patterns of both blocks. */
  lemma TextsHold(noLikes: bool, likes: seq<string>, noEquals: bool, equals: seq<string>, all: seq<string>, text: string)
    requires all == likes + equals && !(noLikes && noEquals)
    requires (noLikes ==> likes == []) && (noEquals ==> equals == [])
    requires !noEquals ==> AllLiteral(equals)
    requires !noLikes && !noEquals ==> SameTexts(likes, equals)
    ensures (exists v | v in all :: Glob(v, text)) <==>
      (noLikes || exists v | v in likes :: Glob(v, text)) && (noEquals || exists v | v in equals :: v == text)
  {
    if noEquals {
      assert all == likes;
    } else {
      assert forall v :: v in all <==> v in equals;
      LiteralsMatch(all, text);
      if !noLikes {
        LiteralsMatch(likes, text);
      }
    }
  }

  lemma WrittenIsCanonical(p: string, key: string, patterns: seq<string>)
    requires EndsWith(key, SUB_SUFFIX)
    ensures Canonical(MergedStatement(p, key, patterns))
  {
    assert AsStrList(MergedStatement(p, key, patterns).action) == [WEB_IDENTITY];
  }

  lemma CanonicalCaller(s: Statement, r: Request)
    requires Extract(s).Some? && Canonical(s)
    ensures HasFederatedPrincipal(s, r.provider) <==> ExtractsFor(s, r.provider)
    ensures s.principal != PrincipalText("*")
    ensures (exists a | a in AsStrList(s.action) :: Glob(a, r.action)) <==> r.action == WEB_IDENTITY
  {
    assert WEB_IDENTITY in AsStrList(s.action);
    GlobReflexive(WEB_IDENTITY);
    WebIdentityIsLiteral(r.action);
  }

  /** The main result: on canonical statements consolidation preserves the meaning of the whole
      policy, for every request, whatever the opaque parts of the other statements mean. */
  lemma ConsolidationPreservesMeaning(ss: seq<Statement>, r: Request, rest: RestMeaning)
    requires forall s | s in ss :: Canonical(s)
    requires OneKeyPerProvider(ss)
    ensures Admits(Consolidated(ss), r, rest) <==> Admits(ss, r, rest)
  {
    SameAllowances(ss, r, rest);
    SameDenials(ss, r, rest);
  }

  lemma SameAllowances(ss: seq<Statement>, r: Request, rest: RestMeaning)
    requires forall s | s in ss :: Canonical(s)
    requires OneKeyPerProvider(ss)
    ensures Applies(Consolidated(ss), "Allow", r, rest) <==> Applies(ss, "Allow", r, rest)
  {
    if t :| t in Consolidated(ss) && t.effect == "Allow" && Covers(t, r, rest) {
      ConsolidatedMembers(ss, t);
      if !(t in ss && Extract(t).None?) {
        var p :| p in ProviderTrail(ss) && t == MergedFor(ss, p);
        MergedForCovers(ss, p, r, rest);
        var s :| s in ss && PatternAdmits(s, p, r);
        CanonicalCovers(s, r, rest);
        assert Applies(ss, "Allow", r, rest);
      }
    }
    if s :| s in ss && s.effect == "Allow" && Covers(s, r, rest) {
      if Extract(s).None? {
        ConsolidatedMembers(ss, s);
      } else {
        CanonicalCovers(s, r, rest);
        SubKeyMembers(ss, r.provider);
        MergedForCovers(ss, r.provider, r, rest);
        ConsolidatedMembers(ss, MergedFor(ss, r.provider));
        assert MergedFor(ss, r.provider) in Consolidated(ss);
      }
    }
  }

  lemma SameDenials(ss: seq<Statement>, r: Request, rest: RestMeaning)
    requires forall s | s in ss :: Canonical(s)
    ensures Applies(Consolidated(ss), "Deny", r, rest) <==> Applies(ss, "Deny", r, rest)
  {
    if t :| t in Consolidated(ss) && t.effect == "Deny" && Covers(t, r, rest) {
      ConsolidatedMembers(ss, t);
      assert t in ss;
    }
    if s :| s in ss && s.effect == "Deny" && Covers(s, r, rest) {
      ConsolidatedMembers(ss, s);
      assert s in Consolidated(ss);
    }
  }
}
