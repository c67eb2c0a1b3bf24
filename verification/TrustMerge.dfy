/** One update of a role's trust policy, the reader that checks it afterwards, and runs of updates. */
module TrustMerge {
  import opened Text
  import opened TrustPolicy
  import opened TrustMeaning

  // ---------------------------------------------------------------------------
  // De-duplication
  // ---------------------------------------------------------------------------

  datatype BlockKey = NoBlockKey | BlockKey(entries: multiset<Entry>)

  datatype ConditionKey =
    | NoConditionKey
    | ConditionKey(stringLike: BlockKey, stringEquals: BlockKey, others: map<string, string>)

  /** The key-sorted JSON text of a statement: equal for two statements exactly when they differ in
      nothing but the order of their object members. */
  datatype StatementKey = StatementKey(
    effect: string,
    action: TextOrList,
    principal: Principal,
    condition: ConditionKey,
    extra: map<string, string>)

  function KeyOfBlock(b: Block): BlockKey {
    if b.NoBlock? then NoBlockKey else BlockKey(multiset(b.entries))
  }

  function KeyOf(s: Statement): StatementKey {
    StatementKey(
      s.effect, s.action, s.principal,
      if s.condition.NoCondition? then NoConditionKey
      else ConditionKey(KeyOfBlock(s.condition.stringLike), KeyOfBlock(s.condition.stringEquals), s.condition.others),
      s.extra)
  }

  predicate KnownKey(ss: seq<Statement>, key: StatementKey) {
    exists s | s in ss :: KeyOf(s) == key
  }

  predicate KeysApart(ss: seq<Statement>) {
    forall i, j | 0 <= i < j < |ss| :: KeyOf(ss[i]) != KeyOf(ss[j])
  }

  function Deduped(ss: seq<Statement>): seq<Statement> {
    if ss == [] then []
    else
      var before := Deduped(ss[..|ss| - 1]);
      var last := ss[|ss| - 1];
      if KnownKey(before, KeyOf(last)) then before else before + [last]
  }

  method DedupeTrustStatements(statements: seq<Statement>) returns (deduped: seq<Statement>)
    ensures deduped == Deduped(statements)
  {
    deduped := [];
    var seen: set<StatementKey> := {};
    for i := 0 to |statements|
      invariant deduped == Deduped(statements[..i])
      invariant forall key :: key in seen <==> KnownKey(deduped, key)
    {
      assert statements[..i + 1][..i] == statements[..i];
      var statement := statements[i];
      var key := KeyOf(statement);
      if key !in seen {
        seen := seen + {key};
        KnownKeyPush(deduped, statement);
        deduped := deduped + [statement];
      }
    }
    assert statements[..|statements|] == statements;
  }

  lemma KnownKeyPush(ss: seq<Statement>, s: Statement)
    ensures forall key :: KnownKey(ss + [s], key) <==> KnownKey(ss, key) || key == KeyOf(s)
  {
    forall key | KnownKey(ss, key) ensures KnownKey(ss + [s], key) {
      var t :| t in ss && KeyOf(t) == key;
      assert t in ss + [s];
    }
    assert s in ss + [s];
  }

  /** De-duplication keeps one statement of every key and drops only repeats. */
  lemma {:induction false} DedupedLaws(ss: seq<Statement>)
    ensures forall s | s in Deduped(ss) :: s in ss
    ensures forall s | s in ss :: KnownKey(Deduped(ss), KeyOf(s))
    ensures KeysApart(Deduped(ss))
  {
    if ss != [] {
      var init, last := ss[..|ss| - 1], ss[|ss| - 1];
      assert ss == init + [last];
      DedupedLaws(init);
      KnownKeyPush(Deduped(init), last);
    }
  }

  // What the key stands for, said of the statements themselves.

  predicate SameBlock(a: Block, b: Block) {
    (a.NoBlock? <==> b.NoBlock?) && multiset(Entries(a)) == multiset(Entries(b))
  }

  predicate SameCondition(a: Condition, b: Condition) {
    && (a.NoCondition? <==> b.NoCondition?)
    && (a.Condition? && b.Condition? ==>
          SameBlock(a.stringLike, b.stringLike) && SameBlock(a.stringEquals, b.stringEquals) && a.others == b.others)
  }

  /** Two statements alike in every member: effect, action, the whole principal, condition and the
      rest; only the order of object members may differ. */
  predicate Alike(s: Statement, t: Statement) {
    && s.effect == t.effect && s.action == t.action && s.principal == t.principal
    && SameCondition(s.condition, t.condition) && s.extra == t.extra
  }

  /** The key identifies a statement exactly. */
  lemma KeyIsIdentity(s: Statement, t: Statement)
    ensures KeyOf(s) == KeyOf(t) <==> Alike(s, t)
  {
  }

  /** The places of the kept items: in order, none like an item before it. */
  ghost predicate FirstPlaces<T(!new)>(all: seq<T>, kept: seq<T>, places: seq<nat>, same: (T, T) -> bool) {
    && |places| == |kept|
    && (forall i | 0 <= i < |places| :: places[i] < |all| && kept[i] == all[places[i]])
    && (forall i, j | 0 <= i < j < |places| :: places[i] < places[j])
    && (forall i, j | 0 <= i < |places| && 0 <= j < places[i] :: !same(all[j], kept[i]))
  }

  lemma PlacesSkip<T(!new)>(init: seq<T>, last: T, kept: seq<T>, places: seq<nat>, same: (T, T) -> bool)
    requires FirstPlaces(init, kept, places, same)
    ensures FirstPlaces(init + [last], kept, places, same)
  {
  }

  lemma PlacesGrow<T(!new)>(init: seq<T>, last: T, kept: seq<T>, places: seq<nat>, same: (T, T) -> bool)
    requires FirstPlaces(init, kept, places, same) && forall j | 0 <= j < |init| :: !same(init[j], last)
    ensures FirstPlaces(init + [last], kept + [last], places + [|init|], same)
  {
  }

  /** What is kept is a subsequence of the list, made of the first of each class of alike statements. */
  lemma {:induction false} DedupedAreFirsts(ss: seq<Statement>) returns (places: seq<nat>)
    ensures FirstPlaces(ss, Deduped(ss), places, Alike)
  {
    places := [];
    if ss != [] {
      var init, last := ss[..|ss| - 1], ss[|ss| - 1];
      assert ss == init + [last];
      places := DedupedAreFirsts(init);
      if KnownKey(Deduped(init), KeyOf(last)) {
        PlacesSkip(init, last, Deduped(init), places, Alike);
      } else {
        NewKey(init, KeyOf(last));
        forall j | 0 <= j < |init| ensures !Alike(init[j], last) {
          KeyIsIdentity(init[j], last);
        }
        PlacesGrow(init, last, Deduped(init), places, Alike);
        places := places + [|init|];
      }
    }
  }

  /** Every statement is kept or is like one that is kept, and no two that are kept are alike. */
  lemma NothingElseIsDropped(ss: seq<Statement>)
    ensures forall s | s in ss :: exists t :: t in Deduped(ss) && Alike(s, t)
    ensures forall i, j | 0 <= i < j < |Deduped(ss)| :: !Alike(Deduped(ss)[i], Deduped(ss)[j])
  {
    DedupedLaws(ss);
    forall s | s in ss ensures exists t :: t in Deduped(ss) && Alike(s, t) {
      assert KnownKey(Deduped(ss), KeyOf(s));
      var t :| t in Deduped(ss) && KeyOf(t) == KeyOf(s);
      KeyIsIdentity(s, t);
    }
    forall i, j | 0 <= i < j < |Deduped(ss)| ensures !Alike(Deduped(ss)[i], Deduped(ss)[j]) {
      KeyIsIdentity(Deduped(ss)[i], Deduped(ss)[j]);
    }
  }

  lemma NewKey(ss: seq<Statement>, key: StatementKey)
    requires !KnownKey(Deduped(ss), key)
    ensures forall j | 0 <= j < |ss| :: KeyOf(ss[j]) != key
  {
    DedupedLaws(ss);
    forall j | 0 <= j < |ss| ensures KeyOf(ss[j]) != key {
      assert KnownKey(Deduped(ss), KeyOf(ss[j]));
    }
  }

  lemma {:induction false} DedupedFixpoint(ss: seq<Statement>)
    requires KeysApart(ss)
    ensures Deduped(ss) == ss
  {
    if ss != [] {
      var init, last := ss[..|ss| - 1], ss[|ss| - 1];
      assert ss == init + [last];
      assert forall i | 0 <= i < |init| :: init[i] == ss[i];
      DedupedFixpoint(init);
      forall s | s in init ensures KeyOf(s) != KeyOf(last) {
        var i :| 0 <= i < |init| && init[i] == s;
        assert ss[i] == s;
      }
    }
  }

  lemma SameKeySameEntries(s: Statement, t: Statement)
    requires KeyOf(s) == KeyOf(t)
    ensures s.condition.NoCondition? <==> t.condition.NoCondition?
    ensures s.condition.Condition? ==>
      forall e :: e in Entries(s.condition.stringLike) <==> e in Entries(t.condition.stringLike)
    ensures s.condition.Condition? ==>
      forall e :: e in Entries(s.condition.stringEquals) <==> e in Entries(t.condition.stringEquals)
  {
    if s.condition.Condition? {
      SameMultiset(s.condition.stringLike, t.condition.stringLike);
      SameMultiset(s.condition.stringEquals, t.condition.stringEquals);
    }
  }

  lemma SameMultiset(a: Block, b: Block)
    requires KeyOfBlock(a) == KeyOfBlock(b)
    ensures forall e :: e in Entries(a) <==> e in Entries(b)
  {
    if a.Block? {
      forall e ensures e in Entries(a) <==> e in Entries(b) {
        assert e in Entries(a) <==> e in multiset(Entries(a));
        assert e in Entries(b) <==> e in multiset(Entries(b));
      }
    }
  }

  /** Statements with the same key mean the same. */
  lemma SameKeySameMeaning(s: Statement, t: Statement, r: Request, rest: RestMeaning)
    requires KeyOf(s) == KeyOf(t)
    ensures Covers(s, r, rest) <==> Covers(t, r, rest)
  {
    SameKeySameEntries(s, t);
    assert OtherOperators(s.condition) == OtherOperators(t.condition);
  }

  /** De-duplication never changes what a policy admits. */
  lemma DedupeKeepsMeaning(ss: seq<Statement>, r: Request, rest: RestMeaning)
    ensures Admits(Deduped(ss), r, rest) <==> Admits(ss, r, rest)
  {
    DedupeKeepsEffect(ss, "Allow", r, rest);
    DedupeKeepsEffect(ss, "Deny", r, rest);
  }

  lemma DedupeKeepsEffect(ss: seq<Statement>, effect: string, r: Request, rest: RestMeaning)
    ensures Applies(Deduped(ss), effect, r, rest) <==> Applies(ss, effect, r, rest)
  {
    DedupedLaws(ss);
    if s :| s in ss && s.effect == effect && Covers(s, r, rest) {
      assert KnownKey(Deduped(ss), KeyOf(s));
      var t :| t in Deduped(ss) && KeyOf(t) == KeyOf(s);
      SameKeySameMeaning(s, t, r, rest);
    }
  }

  /** De-duplication keeps, for every provider, the first key and the set of patterns. */
  lemma {:induction false} DedupeKeepsExtraction(ss: seq<Statement>, p: string)
    ensures SubKey(Deduped(ss), p) == SubKey(ss, p)
    ensures forall x :: x in PatternTrail(Deduped(ss), p) <==> x in PatternTrail(ss, p)
  {
    if ss != [] {
      var init, last := ss[..|ss| - 1], ss[|ss| - 1];
      assert ss == init + [last];
      DedupeKeepsExtraction(init, p);
      OneMore(init, last, p);
      if KnownKey(Deduped(init), KeyOf(last)) {
        if ExtractsFor(last, p) {
          var t :| t in Deduped(init) && KeyOf(t) == KeyOf(last);
          SameKeySameExtraction(last, t);
          SubKeyMembers(Deduped(init), p);
          PatternTrailMembers(Deduped(init), p);
        }
      } else {
        OneMore(Deduped(init), last, p);
      }
    }
  }

  lemma {:induction false} ValuesMembers(entries: seq<Entry>)
    ensures forall x :: x in Values(entries) <==> exists e :: e in entries && x in AsStrList(e.values)
  {
    if entries != [] {
      var init, last := entries[..|entries| - 1], entries[|entries| - 1];
      assert entries == init + [last];
      ValuesMembers(init);
    }
  }

  lemma SubEntriesMembers(s: Statement)
    ensures forall e :: e in StatementSubEntries(s) <==>
      && s.condition.Condition?
      && EndsWith(e.key, SUB_SUFFIX)
      && (e in Entries(s.condition.stringLike) || e in Entries(s.condition.stringEquals))
  {
    if s.condition.Condition? {
      SubEntriesKeys(Entries(s.condition.stringLike));
      SubEntriesKeys(Entries(s.condition.stringEquals));
    }
  }

  /** An entry of a ":sub" key in one of the two operators. */
  predicate IsSubEntry(s: Statement, e: Entry) {
    && s.condition.Condition? && EndsWith(e.key, ":sub")
    && (e in Entries(s.condition.stringLike) || e in Entries(s.condition.stringEquals))
  }

  /** Which statements count as SparkPilot's: those with the web-identity action and, under a ":sub" key of
      either operator, a value with the service-account prefix. */
  lemma RecognisedExactly(s: Statement)
    ensures IsSparkPilotStatement(s) <==>
      && "sts:AssumeRoleWithWebIdentity" in AsStrList(s.action)
      && exists e, v :: IsSubEntry(s, e) && v in AsStrList(e.values) && Contains(v, "emr-containers-sa-")
  {
    SubEntriesMembers(s);
    ValuesMembers(StatementSubEntries(s));
    if e, v :| IsSubEntry(s, e) && v in AsStrList(e.values) && Contains(v, "emr-containers-sa-") {
      assert e in StatementSubEntries(s);
      assert v in Values(StatementSubEntries(s));
    }
    if v :| v in Values(StatementSubEntries(s)) && Contains(v, SA_MARKER) {
      var e :| e in StatementSubEntries(s) && v in AsStrList(e.values);
      assert IsSubEntry(s, e);
    }
  }

  /** The provider that a principal names: itself when it is a text, the first federated one otherwise. */
  predicate NamesFirst(p: Principal, provider: string) {
    match p
    case NoPrincipal => false
    case PrincipalText(t) => t == provider
    case PrincipalMap(One(t), _) => t == provider
    case PrincipalMap(Many(ts), _) => ts != [] && ts[0] == provider
    case PrincipalMap(Absent, _) => false
  }

  /** Such a statement is rewritten exactly when its principal names a provider that is not empty. */
  lemma ExtractedExactly(s: Statement, provider: string)
    ensures ExtractsFor(s, provider) <==>
      IsSparkPilotStatement(s) && provider != "" && NamesFirst(s.principal, provider)
  {
    NamedFirst(s, provider);
    if IsSparkPilotStatement(s) {
      SomeSubEntry(s);
    }
  }

  lemma NamedFirst(s: Statement, provider: string)
    ensures ProviderArn(s) == Some(provider) <==> NamesFirst(s.principal, provider)
  {
  }

  lemma SomeSubEntry(s: Statement)
    requires IsSparkPilotStatement(s)
    ensures StatementSubEntries(s) != []
  {
    var v :| v in Values(StatementSubEntries(s));
  }

  lemma SameKeySameExtraction(s: Statement, t: Statement)
    requires KeyOf(s) == KeyOf(t)
    ensures Extract(s).Some? <==> Extract(t).Some?
    ensures Extract(s).Some? ==> Extract(s).value.provider == Extract(t).value.provider
    ensures Extract(s).Some? ==>
      forall x :: x in Extract(s).value.patterns <==> x in Extract(t).value.patterns
  {
    SameKeySameValues(s, t);
  }

  lemma SameKeySameValues(s: Statement, t: Statement)
    requires KeyOf(s) == KeyOf(t)
    ensures forall x :: x in Values(StatementSubEntries(s)) <==> x in Values(StatementSubEntries(t))
    ensures StatementSubEntries(s) == [] <==> StatementSubEntries(t) == []
  {
    SameKeySameEntries(s, t);
    SubEntriesMembers(s);
    SubEntriesMembers(t);
    SameMembersSameValues(StatementSubEntries(s), StatementSubEntries(t));
  }

  lemma SameMembersSameValues(es: seq<Entry>, et: seq<Entry>)
    requires forall e :: e in es <==> e in et
    ensures forall x :: x in Values(es) <==> x in Values(et)
    ensures es == [] <==> et == []
  {
    ValuesMembers(es);
    ValuesMembers(et);
    assert es != [] ==> es[0] in es;
    assert et != [] ==> et[0] in et;
  }

  // ---------------------------------------------------------------------------
  // One update, and the reader
  // ---------------------------------------------------------------------------

  /** What an update asks for: the cluster's provider, the path of its keys, and the subject pattern. */
  datatype Grant = Grant(provider: string, path: string, pattern: string) {
    function Key(): string {
      path + SUB_SUFFIX
    }
    /** The caller passes an ARN and a pattern built around the service-account prefix. */
    predicate Proper() {
      provider != "" && Contains(pattern, SA_MARKER)
    }
  }

  predicate StatementHasGrant(s: Statement, g: Grant) {
    && HasAction(s, WEB_IDENTITY)
    && HasFederatedPrincipal(s, g.provider)
    && g.pattern in SubPatternsUnder(s, g.path)
  }

  predicate AlreadyPresent(ss: seq<Statement>, g: Grant) {
    exists s | s in ss :: StatementHasGrant(s, g)
  }

  function Added(g: Grant): Statement {
    MergedStatement(g.provider, g.Key(), [g.pattern])
  }

  function Extended(ss: seq<Statement>, g: Grant): seq<Statement> {
    if AlreadyPresent(ss, g) then ss else ss + [Added(g)]
  }

  /** The whole update of a statement list. */
  function Merged(ss: seq<Statement>, g: Grant): seq<Statement> {
    Consolidated(Extended(Deduped(ss), g))
  }

  /** The reader's own idea of a statement's provider: only a plain text counts. */
  function FederatedValue(p: Principal): Option<string> {
    match p
    case NoPrincipal => None
    case PrincipalText(t) => Some(t)
    case PrincipalMap(federated, _) => if federated.One? then Some(federated.text) else None
  }

  /** The reader's own idea of a statement's actions: an empty text is no action. */
  function ActionValues(action: TextOrList): seq<string> {
    match action
    case Absent => []
    case One(t) => if t == "" then [] else [t]
    case Many(ts) => ts
  }

  /** The trust check's matcher. */
  predicate TrustStatementMatches(s: Statement, g: Grant) {
    && WEB_IDENTITY in ActionValues(s.action)
    && FederatedValue(s.principal) == Some(g.provider)
    && s.condition.Condition?
    && g.pattern in Lookup(Entries(s.condition.stringLike), g.Key())
  }

  predicate ReaderFinds(ss: seq<Statement>, g: Grant) {
    exists s | s in ss :: TrustStatementMatches(s, g)
  }

  /** Under the first entry of a key, which in an object is the only one. */
  predicate HoldsUnder(entries: seq<Entry>, key: string, x: string) {
    exists i: nat | i < |entries| :: FirstOfKey(entries, i, key) && x in AsStrList(entries[i].values)
  }

  predicate FirstOfKey(entries: seq<Entry>, i: nat, key: string)
    requires i < |entries|
  {
    entries[i].key == key && forall j | 0 <= j < i :: entries[j].key != key
  }

  lemma {:induction false} LookupHolds(entries: seq<Entry>, key: string, x: string)
    ensures x in Lookup(entries, key) <==> HoldsUnder(entries, key, x)
  {
    if entries != [] {
      if entries[0].key == key {
        assert FirstOfKey(entries, 0, key);
      } else {
        LookupHolds(entries[1..], key, x);
        if i: nat :| i < |entries| && FirstOfKey(entries, i, key) && x in AsStrList(entries[i].values) {
          assert i > 0 && FirstOfKey(entries[1..], i - 1, key);
        }
        if i: nat :| i < |entries[1..]| && FirstOfKey(entries[1..], i, key) && x in AsStrList(entries[1..][i].values) {
          assert FirstOfKey(entries, i + 1, key);
        }
      }
    }
  }

  /** One of the federated principals, or the principal's text. */
  predicate NamesAny(p: Principal, provider: string) {
    match p
    case NoPrincipal => false
    case PrincipalText(t) => t == provider
    case PrincipalMap(One(t), _) => t == provider
    case PrincipalMap(Many(ts), _) => provider in ts
    case PrincipalMap(Absent, _) => false
  }

  /** The principal is this provider and nothing else beside it in a list. */
  predicate NamesOnly(p: Principal, provider: string) {
    match p
    case PrincipalText(t) => t == provider
    case PrincipalMap(One(t), _) => t == provider
    case _ => false
  }

  /** When a grant counts as there already: under its own key in either operator, for any of the federated
      principals. */
  lemma HasGrantExactly(s: Statement, g: Grant)
    ensures StatementHasGrant(s, g) <==>
      && "sts:AssumeRoleWithWebIdentity" in AsStrList(s.action)
      && NamesAny(s.principal, g.provider)
      && s.condition.Condition?
      && (HoldsUnder(Entries(s.condition.stringLike), g.path + ":sub", g.pattern) ||
          HoldsUnder(Entries(s.condition.stringEquals), g.path + ":sub", g.pattern))
  {
    if s.condition.Condition? {
      LookupHolds(Entries(s.condition.stringLike), g.Key(), g.pattern);
      LookupHolds(Entries(s.condition.stringEquals), g.Key(), g.pattern);
    }
  }

  /** When the trust check finds it: under StringLike only, for a principal that is the provider alone. */
  lemma MatchesExactly(s: Statement, g: Grant)
    ensures TrustStatementMatches(s, g) <==>
      && "sts:AssumeRoleWithWebIdentity" in AsStrList(s.action)
      && NamesOnly(s.principal, g.provider)
      && s.condition.Condition?
      && HoldsUnder(Entries(s.condition.stringLike), g.path + ":sub", g.pattern)
  {
    if s.condition.Condition? {
      LookupHolds(Entries(s.condition.stringLike), g.Key(), g.pattern);
    }
  }

  lemma {:induction false} LookupIsAnEntry(entries: seq<Entry>, key: string, x: string)
    requires x in Lookup(entries, key)
    ensures exists e :: e in entries && e.key == key && x in AsStrList(e.values)
  {
    if entries[0].key != key {
      LookupIsAnEntry(entries[1..], key, x);
    }
  }

  lemma PathKeyEndsInSub(path: string)
    ensures EndsWith(path + SUB_SUFFIX, SUB_SUFFIX)
  {
  }

  /** A statement carrying a proper grant under the provider's own key is a SparkPilot statement
      whose extraction contains the pattern. */
  lemma CarrierIsSparkPilot(s: Statement, g: Grant)
    requires g.Proper() && HasAction(s, WEB_IDENTITY) && g.pattern in SubPatternsUnder(s, g.path)
    ensures IsSparkPilotStatement(s) && g.pattern in Values(StatementSubEntries(s)) && StatementSubEntries(s) != []
  {
    var likes, equals := Entries(s.condition.stringLike), Entries(s.condition.stringEquals);
    if g.pattern in Lookup(likes, g.Key()) {
      LookupIsAnEntry(likes, g.Key(), g.pattern);
    } else {
      LookupIsAnEntry(equals, g.Key(), g.pattern);
    }
    PathKeyEndsInSub(g.path);
    SubEntriesMembers(s);
    ValuesMembers(StatementSubEntries(s));
  }

  lemma ExtractsWhenNamed(s: Statement, p: string)
    requires p != "" && ProviderArn(s) == Some(p) && IsSparkPilotStatement(s) && StatementSubEntries(s) != []
    ensures ExtractsFor(s, p) && Extract(s).value.patterns == Values(StatementSubEntries(s))
  {
  }

  /** What the reader accepts is a SparkPilot statement read as a grant of that provider. */
  lemma AcceptedIsExtracted(s: Statement, g: Grant)
    requires g.Proper() && TrustStatementMatches(s, g)
    ensures ExtractsFor(s, g.provider)
  {
    AcceptedIsNamed(s, g);
    CarrierIsSparkPilot(s, g);
    ExtractsWhenNamed(s, g.provider);
  }

  lemma AcceptedIsNamed(s: Statement, g: Grant)
    requires TrustStatementMatches(s, g)
    ensures HasAction(s, WEB_IDENTITY) && ProviderArn(s) == Some(g.provider) && g.pattern in SubPatternsUnder(s, g.path)
  {
  }

  lemma AddedExtracts(g: Grant)
    requires g.Proper()
    ensures Extract(Added(g)) == Some(Extracted(g.provider, g.Key(), [g.pattern]))
  {
    assert g.pattern in [g.pattern];
    PathKeyEndsInSub(g.path);
    MergedExtracts(g.provider, g.Key(), [g.pattern]);
  }

  /** The reader accepts the merged statement of the grant's provider exactly when it carries the
      grant's key and pattern, and no other provider's. */
  lemma ReaderOnMerged(ss: seq<Statement>, p: string, g: Grant)
    requires p in ProviderTrail(ss)
    ensures TrustStatementMatches(MergedFor(ss, p), g) <==>
      p == g.provider && SubKey(ss, p) == Some(g.Key()) && g.pattern in PatternTrail(ss, p)
  {
    SubKeyMembers(ss, p);
    DistinctLaws(PatternTrail(ss, p));
    ReaderOnWritten(p, SubKey(ss, p).value, Distinct(PatternTrail(ss, p)), g);
  }

  lemma ReaderOnWritten(p: string, key: string, patterns: seq<string>, g: Grant)
    ensures TrustStatementMatches(MergedStatement(p, key, patterns), g) <==>
      p == g.provider && key == g.Key() && g.pattern in patterns
  {
    var s := MergedStatement(p, key, patterns);
    var e := s.condition.stringLike.entries[0];
    assert AsStrList(e.values) == patterns;
    assert ActionValues(s.action) == [WEB_IDENTITY];
    assert [e][1..] == [];
    assert Lookup([], g.Key()) == [];
  }

  lemma ReaderOnConsolidated(ss: seq<Statement>, g: Grant)
    requires g.Proper()
    ensures ReaderFinds(Consolidated(ss), g) <==>
      SubKey(ss, g.provider) == Some(g.Key()) && g.pattern in PatternTrail(ss, g.provider)
  {
    SubKeyMembers(ss, g.provider);
    if s :| s in Consolidated(ss) && TrustStatementMatches(s, g) {
      AcceptedIsExtracted(s, g);
      ConsolidatedMembers(ss, s);
      var p :| p in ProviderTrail(ss) && s == MergedFor(ss, p);
      ReaderOnMerged(ss, p, g);
    }
    if SubKey(ss, g.provider) == Some(g.Key()) && g.pattern in PatternTrail(ss, g.provider) {
      ReaderOnMerged(ss, g.provider, g);
      ConsolidatedMembers(ss, MergedFor(ss, g.provider));
    }
  }

  /** Writer and reader: for every policy, after an update the trust check finds the grant exactly
      when the provider's SparkPilot statements, if it has any, are keyed by its own path (that of the
      first one decides), and the update did not skip adding the grant on account of a statement
      whose grants are read as another provider's. */
  lemma WriterAndReader(ss: seq<Statement>, g: Grant)
    requires g.Proper()
    ensures ReaderFinds(Merged(ss, g), g) <==>
      && (SubKey(ss, g.provider).Some? ==> SubKey(ss, g.provider).value == g.Key())
      && (AlreadyPresent(Deduped(ss), g) ==> (g.provider, g.pattern) in Grants(ss))
  {
    var d := Deduped(ss);
    ReaderOnConsolidated(Extended(d, g), g);
    DedupeKeepsExtraction(ss, g.provider);
    AddedExtracts(g);
    OneMore(d, Added(g), g.provider);
    SubKeyMembers(d, g.provider);
    NoTrailNoPatterns(d, g.provider);
  }

  /** Every SparkPilot statement names a single provider. */
  predicate SingleProviderPolicy(ss: seq<Statement>) {
    forall s | s in ss && IsSparkPilotStatement(s) :: OneProvider(s.principal)
  }

  /** The provider's SparkPilot statements all use this key. */
  predicate OwnKeys(ss: seq<Statement>, provider: string, key: string) {
    forall s | s in ss && ExtractsFor(s, provider) :: Extract(s).value.subKey == key
  }

  /** So on policies whose SparkPilot statements name one provider each and use its own key, the
      trust check always finds the grant just written. */
  lemma WriterAndReaderAgree(ss: seq<Statement>, g: Grant)
    requires g.Proper() && OwnKeys(ss, g.provider, g.Key())
    requires SingleProviderPolicy(ss)
    ensures ReaderFinds(Merged(ss, g), g)
  {
    WriterAndReader(ss, g);
    SubKeyMembers(ss, g.provider);
    PresentIsRead(ss, g);
  }

  lemma PresentIsRead(ss: seq<Statement>, g: Grant)
    requires g.Proper() && SingleProviderPolicy(ss)
    ensures AlreadyPresent(Deduped(ss), g) ==> (g.provider, g.pattern) in Grants(ss)
  {
    DedupedLaws(ss);
    PresentIsGranted(Deduped(ss), g);
    DedupeKeepsExtraction(ss, g.provider);
  }

  lemma PresentIsGranted(ss: seq<Statement>, g: Grant)
    requires g.Proper() && SingleProviderPolicy(ss)
    ensures AlreadyPresent(ss, g) ==> g.pattern in PatternTrail(ss, g.provider)
  {
    if s :| s in ss && StatementHasGrant(s, g) {
      CarrierIsSparkPilot(s, g);
      HolderIsTheProvider(s, g.provider);
      PatternTrailMembers(ss, g.provider);
    }
  }

  lemma HolderIsTheProvider(s: Statement, p: string)
    requires p != "" && IsSparkPilotStatement(s) && StatementSubEntries(s) != []
    requires HasFederatedPrincipal(s, p) && OneProvider(s.principal)
    ensures ExtractsFor(s, p) && Extract(s).value.patterns == Values(StatementSubEntries(s))
  {
    HolderIsNamed(s, p);
    ExtractsWhenNamed(s, p);
  }

  lemma HolderIsNamed(s: Statement, p: string)
    requires HasFederatedPrincipal(s, p) && OneProvider(s.principal)
    ensures ProviderArn(s) == Some(p)
  {
  }

  // ---------------------------------------------------------------------------
  // Runs of updates
  // ---------------------------------------------------------------------------

  function MergedRun(ss: seq<Statement>, gs: seq<Grant>): seq<Statement> {
    if gs == [] then ss else Merged(MergedRun(ss, gs[..|gs| - 1]), gs[|gs| - 1])
  }

  ghost function Requested(gs: seq<Grant>): iset<(string, string)> {
    iset g | g in gs :: (g.provider, g.pattern)
  }

  /** For any policy, an update adds its grant to the extracted relation unless it was skipped, and
      nothing else changes there. */
  lemma MergeGrants(ss: seq<Statement>, g: Grant)
    requires g.Proper()
    ensures Grants(Merged(ss, g)) ==
      Grants(ss) + if AlreadyPresent(Deduped(ss), g) then iset{} else iset{(g.provider, g.pattern)}
  {
    ConsolidationKeepsGrants(Extended(Deduped(ss), g));
    ExtendedGrants(Deduped(ss), g);
    DedupeKeepsGrants(ss);
  }

  lemma DedupeKeepsGrants(ss: seq<Statement>)
    ensures Grants(Deduped(ss)) == Grants(ss)
  {
    forall p, x ensures (p, x) in Grants(Deduped(ss)) <==> (p, x) in Grants(ss) {
      DedupeKeepsExtraction(ss, p);
    }
  }

  lemma ExtendedGrants(d: seq<Statement>, g: Grant)
    requires g.Proper()
    ensures Grants(Extended(d, g)) ==
      Grants(d) + if AlreadyPresent(d, g) then iset{} else iset{(g.provider, g.pattern)}
  {
    if !AlreadyPresent(d, g) {
      forall p, x ensures (p, x) in Grants(d + [Added(g)]) <==>
        (p, x) in Grants(d) || (p, x) == (g.provider, g.pattern)
      {
        AddedGrant(d, g, p, x);
      }
    }
  }

  lemma AddedGrant(d: seq<Statement>, g: Grant, p: string, x: string)
    requires g.Proper()
    ensures x in PatternTrail(d + [Added(g)], p) <==> x in PatternTrail(d, p) || (p, x) == (g.provider, g.pattern)
  {
    AddedExtracts(g);
    TrailsGrow(d, Added(g), d + [Added(g)], Extracted(g.provider, g.Key(), [g.pattern]), p);
  }

  lemma ExtendedMembers(d: seq<Statement>, g: Grant, s: Statement)
    ensures s in Extended(d, g) <==> s in d || (s == Added(g) && !AlreadyPresent(d, g))
  {
  }

  predicate WrittenFor(s: Statement, p: string) {
    s.effect == "Allow" && s.principal == PrincipalMap(One(p), map[])
  }

  /** A statement of the updated list was there before, or was written by the update. */
  lemma MergedMembers(ss: seq<Statement>, g: Grant, s: Statement)
    requires s in Merged(ss, g)
    ensures s in ss || exists p :: WrittenFor(s, p)
  {
    var e := Extended(Deduped(ss), g);
    ConsolidatedMembers(e, s);
    if s in e {
      ExtendedMembers(Deduped(ss), g, s);
      DedupedLaws(ss);
      if s == Added(g) {
        assert WrittenFor(s, g.provider);
      }
    } else {
      var p :| p in ProviderTrail(e) && s == MergedFor(e, p);
      assert WrittenFor(s, p);
    }
  }

  /** An update drops no statement that is not SparkPilot's, except for repeats: one like it stays. */
  lemma UpdateKeepsTheRest(ss: seq<Statement>, g: Grant, s: Statement)
    requires g.Proper() && s in ss && Extract(s).None?
    ensures exists t :: t in Merged(ss, g) && Alike(s, t)
  {
    NothingElseIsDropped(ss);
    var t :| t in Deduped(ss) && Alike(s, t);
    KeyIsIdentity(s, t);
    SameKeySameExtraction(s, t);
    ExtendedMembers(Deduped(ss), g, t);
    ConsolidatedMembers(Extended(Deduped(ss), g), t);
  }

  lemma SingleProviderIsKept(ss: seq<Statement>, g: Grant)
    requires SingleProviderPolicy(ss)
    ensures SingleProviderPolicy(Merged(ss, g))
  {
    forall s | s in Merged(ss, g) && IsSparkPilotStatement(s) ensures OneProvider(s.principal) {
      MergedNamesOne(ss, g, s);
    }
  }

  lemma MergedNamesOne(ss: seq<Statement>, g: Grant, s: Statement)
    requires SingleProviderPolicy(ss) && s in Merged(ss, g) && IsSparkPilotStatement(s)
    ensures OneProvider(s.principal)
  {
    MergedMembers(ss, g, s);
    if s !in ss {
      var p :| WrittenFor(s, p);
      WrittenForNamesOne(s, p);
    }
  }

  lemma WrittenForNamesOne(s: Statement, p: string)
    requires WrittenFor(s, p)
    ensures OneProvider(s.principal)
  {
  }

  /** Over any run of updates of a single-provider policy the grants are the initial ones plus those
      requested. */
  lemma {:induction false} RunGrants(ss: seq<Statement>, gs: seq<Grant>)
    requires SingleProviderPolicy(ss) && forall g | g in gs :: g.Proper()
    ensures Grants(MergedRun(ss, gs)) == Grants(ss) + Requested(gs)
    ensures SingleProviderPolicy(MergedRun(ss, gs))
  {
    if gs != [] {
      var init, last := gs[..|gs| - 1], gs[|gs| - 1];
      assert gs == init + [last];
      RunGrants(ss, init);
      OneMergeGrants(MergedRun(ss, init), last);
      assert Requested(gs) == Requested(init) + iset{(last.provider, last.pattern)};
    }
  }

  /** One update of a single-provider policy adds its grant, whether or not it was there. */
  lemma OneMergeGrants(ss: seq<Statement>, g: Grant)
    requires SingleProviderPolicy(ss) && g.Proper()
    ensures Grants(Merged(ss, g)) == Grants(ss) + iset{(g.provider, g.pattern)}
    ensures SingleProviderPolicy(Merged(ss, g))
  {
    MergeGrants(ss, g);
    SingleProviderIsKept(ss, g);
    PresentIsRead(ss, g);
  }

  /** Whatever the order and the repetitions, two runs asking for the same grants end with the same
      grants. */
  lemma RunOrderIsIrrelevant(ss: seq<Statement>, gs: seq<Grant>, hs: seq<Grant>)
    requires SingleProviderPolicy(ss) && forall g | g in gs :: g.Proper()
    requires forall g :: g in gs <==> g in hs
    ensures Grants(MergedRun(ss, gs)) == Grants(MergedRun(ss, hs))
  {
    RunGrants(ss, gs);
    RunGrants(ss, hs);
    assert Requested(gs) == Requested(hs);
  }

  /** After any non-empty run each provider has exactly one SparkPilot statement, and each of its
      patterns occurs once. */
  lemma RunIsTight(ss: seq<Statement>, gs: seq<Grant>, provider: string)
    requires gs != []
    ensures NoRepeats(ProviderTrail(MergedRun(ss, gs)))
    ensures NoRepeats(PatternTrail(MergedRun(ss, gs), provider))
  {
    ConsolidationIsTight(Extended(Deduped(MergedRun(ss, gs[..|gs| - 1])), gs[|gs| - 1]), provider);
  }

  // ---------------------------------------------------------------------------
  // Repeating an update
  // ---------------------------------------------------------------------------

  lemma {:induction false} RetainedKeepsKeysApart(ss: seq<Statement>)
    requires KeysApart(ss)
    ensures KeysApart(Retained(ss))
    ensures forall s | s in Retained(ss) :: s in ss
  {
    if ss != [] {
      var init, last := ss[..|ss| - 1], ss[|ss| - 1];
      assert ss == init + [last];
      assert forall i | 0 <= i < |init| :: init[i] == ss[i];
      RetainedKeepsKeysApart(init);
      forall s | s in init ensures KeyOf(s) != KeyOf(last) {
        var i :| 0 <= i < |init| && init[i] == s;
        assert ss[i] == s;
      }
      assert forall i | 0 <= i < |Retained(init)| :: Retained(init)[i] in init;
    }
  }

  lemma {:induction false} MergedAllAt(ss: seq<Statement>, providers: seq<string>)
    ensures |MergedAll(ss, providers)| == |providers|
    ensures forall i | 0 <= i < |providers| :: MergedAll(ss, providers)[i] == MergedFor(ss, providers[i])
  {
    if providers != [] {
      var init := providers[..|providers| - 1];
      var before, last := MergedAll(ss, init), MergedFor(ss, providers[|providers| - 1]);
      MergedAllAt(ss, init);
      assert MergedAll(ss, providers) == before + [last];
      assert forall i | 0 <= i < |init| :: before[i] == MergedFor(ss, init[i]) && init[i] == providers[i];
    }
  }

  lemma ExtendedRetains(d: seq<Statement>, g: Grant)
    requires g.Proper()
    ensures Retained(Extended(d, g)) == Retained(d)
  {
    AddedExtracts(g);
    OneMore(d, Added(g), g.provider);
  }

  /** What an update writes has no duplicates left. */
  lemma MergedIsDeduped(ss: seq<Statement>, g: Grant)
    requires g.Proper()
    ensures Deduped(Merged(ss, g)) == Merged(ss, g)
  {
    var d := Deduped(ss);
    var e := Extended(d, g);
    DedupedLaws(ss);
    RetainedKeepsKeysApart(d);
    ExtendedRetains(d, g);
    ConsolidatedKeysApart(e);
    DedupedFixpoint(Consolidated(e));
  }

  lemma KeysApartConcat(a: seq<Statement>, b: seq<Statement>)
    requires KeysApart(a) && KeysApart(b)
    requires forall s, t | s in a && t in b :: KeyOf(s) != KeyOf(t)
    ensures KeysApart(a + b)
  {
    var all := a + b;
    forall i, j | 0 <= i < j < |all| ensures KeyOf(all[i]) != KeyOf(all[j]) {
      if j < |a| {
        assert all[i] == a[i] && all[j] == a[j];
      } else if i < |a| {
        assert all[i] in a && all[j] in b;
      } else {
        assert all[i] == b[i - |a|] && all[j] == b[j - |a|];
      }
    }
  }

  lemma WrittenKeysApart(e: seq<Statement>, providers: seq<string>)
    requires NoRepeats(providers)
    ensures KeysApart(MergedAll(e, providers))
  {
    MergedAllAt(e, providers);
    var written := MergedAll(e, providers);
    forall i, j | 0 <= i < j < |written| ensures KeyOf(written[i]) != KeyOf(written[j]) {
      TwoWritten(e, providers[i], providers[j]);
    }
  }

  lemma KeptApartFromWritten(e: seq<Statement>, s: Statement, t: Statement)
    requires s in Retained(e) && t in MergedAll(e, Distinct(ProviderTrail(e)))
    ensures KeyOf(s) != KeyOf(t)
  {
    RetainedExtractNothing(e, "");
    DistinctLaws(ProviderTrail(e));
    MergedAllMembers(e, Distinct(ProviderTrail(e)));
    var p :| p in Distinct(ProviderTrail(e)) && t == MergedFor(e, p);
    KeptAndWritten(e, s, p);
  }

  lemma ConsolidatedKeysApart(e: seq<Statement>)
    requires KeysApart(Retained(e))
    ensures KeysApart(Consolidated(e))
  {
    var providers := Distinct(ProviderTrail(e));
    DistinctLaws(ProviderTrail(e));
    WrittenKeysApart(e, providers);
    forall s, t | s in Retained(e) && t in MergedAll(e, providers) ensures KeyOf(s) != KeyOf(t) {
      KeptApartFromWritten(e, s, t);
    }
    KeysApartConcat(Retained(e), MergedAll(e, providers));
  }

  lemma KeptAndWritten(e: seq<Statement>, s: Statement, p: string)
    requires Extract(s).None? && p in ProviderTrail(e)
    ensures KeyOf(s) != KeyOf(MergedFor(e, p))
  {
    MergedForExtracts(e, p);
    if KeyOf(s) == KeyOf(MergedFor(e, p)) {
      SameKeySameExtraction(s, MergedFor(e, p));
    }
  }

  lemma TwoWritten(e: seq<Statement>, p: string, q: string)
    requires p != q
    ensures KeyOf(MergedFor(e, p)) != KeyOf(MergedFor(e, q))
  {
    assert MergedFor(e, p).principal != MergedFor(e, q).principal;
  }

  lemma RepeatOnResult(ss: seq<Statement>, g: Grant)
    requires g.Proper()
    ensures var t := Merged(ss, g);
      Merged(t, g) == t <==> AlreadyPresent(t, g) || (g.provider, g.pattern) in Grants(t)
  {
    var t := Merged(ss, g);
    MergedIsDeduped(ss, g);
    ConsolidationIsIdempotent(Extended(Deduped(ss), g));
    MergeGrants(t, g);
    if !AlreadyPresent(t, g) && (g.provider, g.pattern) in Grants(t) {
      ReaddingIsAbsorbed(Extended(Deduped(ss), g), g);
    }
  }

  lemma WrittenNamesOne(e: seq<Statement>, p: string)
    ensures OneProvider(MergedFor(e, p).principal)
  {
  }

  /** A statement that a merge wrote and that carries the grant is read as the grant. */
  lemma WrittenCarrierIsGrant(e: seq<Statement>, p: string, g: Grant)
    requires g.Proper() && p in ProviderTrail(e) && StatementHasGrant(MergedFor(e, p), g)
    ensures (g.provider, g.pattern) in Grants(e)
  {
    var s := MergedFor(e, p);
    CarrierIsSparkPilot(s, g);
    WrittenNamesOne(e, p);
    HolderIsTheProvider(s, g.provider);
    MergedForExtracts(e, p);
    DistinctLaws(PatternTrail(e, p));
  }

  /** After an update the writer finds the grant in a statement left alone, or in what it wrote. */
  lemma PresentAfterwards(e: seq<Statement>, g: Grant)
    requires g.Proper()
    ensures AlreadyPresent(Retained(e), g) ==> AlreadyPresent(Consolidated(e), g)
    ensures AlreadyPresent(Consolidated(e), g) ==>
      AlreadyPresent(Retained(e), g) || (g.provider, g.pattern) in Grants(e)
  {
    RetainedExtractNothing(e, "");
    if s :| s in Consolidated(e) && StatementHasGrant(s, g) {
      ConsolidatedMembers(e, s);
      if !(s in e && Extract(s).None?) {
        var p :| p in ProviderTrail(e) && s == MergedFor(e, p);
        WrittenCarrierIsGrant(e, p, g);
      }
    }
  }

  /** For every policy: repeating the update changes nothing if and only if, should the writer find the
      grant in the policy, consolidation reads it there too or leaves a statement with it alone. */
  lemma RepeatedMerge(ss: seq<Statement>, g: Grant)
    requires g.Proper()
    ensures Merged(Merged(ss, g), g) == Merged(ss, g) <==>
      (AlreadyPresent(Deduped(ss), g) ==>
         (g.provider, g.pattern) in Grants(ss) || AlreadyPresent(Retained(Deduped(ss)), g))
  {
    var e := Extended(Deduped(ss), g);
    RepeatOnResult(ss, g);
    MergeGrants(ss, g);
    ConsolidationKeepsGrants(e);
    PresentAfterwards(e, g);
    ExtendedRetains(Deduped(ss), g);
  }

  lemma ReaddingIsAbsorbed(e: seq<Statement>, g: Grant)
    requires g.Proper() && (g.provider, g.pattern) in Grants(Consolidated(e))
    ensures Consolidated(Consolidated(e) + [Added(g)]) == Consolidated(e)
  {
    var t, added := Consolidated(e), Added(g);
    var providers := Distinct(ProviderTrail(t));
    AddedExtracts(g);
    OneMore(t, added, g.provider);
    NoTrailNoPatterns(t, g.provider);
    DistinctLaws(ProviderTrail(t));
    DistinctPush(ProviderTrail(t), g.provider);
    forall p | p in providers ensures MergedFor(t + [added], p) == MergedFor(t, p) {
      SameMerged(t, g, p);
    }
    MergedAllCongruence(t + [added], t, providers);
    ConsolidationIsIdempotent(e);
  }

  lemma SameMerged(t: seq<Statement>, g: Grant, p: string)
    requires g.Proper() && (g.provider, g.pattern) in Grants(t)
    ensures MergedFor(t + [Added(g)], p) == MergedFor(t, p)
  {
    AddedExtracts(g);
    NoTrailNoPatterns(t, g.provider);
    SubKeyMembers(t, g.provider);
    DistinctLaws(PatternTrail(t, g.provider));
    DistinctPush(PatternTrail(t, g.provider), g.pattern);
    OneMore(t, Added(g), p);
  }

  /** So on single-provider policies a repeated update always changes nothing. */
  lemma RepeatChangesNothing(ss: seq<Statement>, g: Grant)
    requires g.Proper() && SingleProviderPolicy(ss)
    ensures Merged(Merged(ss, g), g) == Merged(ss, g)
  {
    RepeatedMerge(ss, g);
    PresentIsRead(ss, g);
  }
}
