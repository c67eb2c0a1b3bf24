/** What runs of updates admit, and the update as it acts on the policy document. */
module TrustUpdates {
  import opened Text
  import opened TrustPolicy
  import opened TrustMeaning
  import opened TrustMerge

  /** A policy whose SparkPilot statements all have SparkPilot's own shape and one key per provider. */
  predicate CanonicalPolicy(ss: seq<Statement>) {
    && (forall s | s in ss :: Canonical(s))
    && OneKeyPerProvider(ss)
    && SingleProviderPolicy(ss)
  }

  /** What a grant is meant to admit. */
  predicate GrantAdmits(g: Grant, r: Request) {
    && r.action == WEB_IDENTITY
    && r.provider == g.provider
    && g.Key() in r.context
    && Glob(g.pattern, r.context[g.Key()])
  }

  predicate Fits(ss: seq<Statement>, g: Grant) {
    g.Proper() && OwnKeys(ss, g.provider, g.Key())
  }

  lemma AddedCovers(g: Grant, r: Request, rest: RestMeaning)
    ensures Covers(Added(g), r, rest) <==> GrantAdmits(g, r)
  {
    MergedStatementCovers(g.provider, g.Key(), [g.pattern], r, rest);
    assert g.pattern in [g.pattern];
  }

  lemma DedupedIsCanonical(ss: seq<Statement>)
    requires CanonicalPolicy(ss)
    ensures CanonicalPolicy(Deduped(ss))
  {
    DedupedLaws(ss);
  }

  lemma ExtendedIsCanonical(d: seq<Statement>, g: Grant)
    requires CanonicalPolicy(d) && Fits(d, g)
    ensures CanonicalPolicy(Extended(d, g))
    ensures forall s | s in Extended(d, g) && ExtractsFor(s, g.provider) :: Extract(s).value.subKey == g.Key()
  {
    AddedExtracts(g);
    AddedIsCanonical(g);
    forall s ensures s in Extended(d, g) <==> s in d || (s == Added(g) && !AlreadyPresent(d, g)) {
      ExtendedMembers(d, g, s);
    }
  }

  lemma AddedIsCanonical(g: Grant)
    ensures Canonical(Added(g))
  {
    PathKeyEndsInSub(g.path);
    WrittenIsCanonical(g.provider, g.Key(), [g.pattern]);
  }

  /** A canonical statement that already carries the grant admits what the grant admits. */
  lemma CarrierAdmits(d: seq<Statement>, g: Grant, r: Request, rest: RestMeaning)
    requires CanonicalPolicy(d) && Fits(d, g) && AlreadyPresent(d, g) && GrantAdmits(g, r)
    ensures Applies(d, "Allow", r, rest)
  {
    var s :| s in d && StatementHasGrant(s, g);
    CarrierIsSparkPilot(s, g);
    HolderIsTheProvider(s, g.provider);
    assert PatternAdmits(s, g.provider, r);
    CanonicalCovers(s, r, rest);
  }

  lemma ExtendedApplies(d: seq<Statement>, g: Grant, r: Request, rest: RestMeaning)
    requires CanonicalPolicy(d) && Fits(d, g)
    ensures Applies(Extended(d, g), "Allow", r, rest) <==> Applies(d, "Allow", r, rest) || GrantAdmits(g, r)
    ensures Applies(Extended(d, g), "Deny", r, rest) <==> Applies(d, "Deny", r, rest)
  {
    AddedCovers(g, r, rest);
    if AlreadyPresent(d, g) {
      if GrantAdmits(g, r) {
        CarrierAdmits(d, g, r, rest);
      }
    } else {
      assert Added(g) in Extended(d, g);
      assert forall s :: s in Extended(d, g) <==> s in d || s == Added(g);
    }
  }

  /** One update of a canonical policy widens what it allows by exactly the grant, and leaves what
      it denies. */
  lemma UpdateMeaning(ss: seq<Statement>, g: Grant, r: Request, rest: RestMeaning)
    requires CanonicalPolicy(ss) && Fits(ss, g)
    ensures Applies(Merged(ss, g), "Allow", r, rest) <==> Applies(ss, "Allow", r, rest) || GrantAdmits(g, r)
    ensures Applies(Merged(ss, g), "Deny", r, rest) <==> Applies(ss, "Deny", r, rest)
  {
    var d := Deduped(ss);
    DedupedLaws(ss);
    DedupedIsCanonical(ss);
    ExtendedIsCanonical(d, g);
    DedupeKeepsEffect(ss, "Allow", r, rest);
    DedupeKeepsEffect(ss, "Deny", r, rest);
    ExtendedApplies(d, g, r, rest);
    SameAllowances(Extended(d, g), r, rest);
    SameDenials(Extended(d, g), r, rest);
  }

  /** A SparkPilot statement of the consolidated list: its key is the one its provider had. */
  lemma ConsolidatedKey(e: seq<Statement>, s: Statement)
    requires s in Consolidated(e) && Extract(s).Some?
    ensures SubKey(e, Extract(s).value.provider) == Some(Extract(s).value.subKey)
    ensures s == MergedFor(e, Extract(s).value.provider)
  {
    ConsolidatedMembers(e, s);
    var p :| p in ProviderTrail(e) && s == MergedFor(e, p);
    MergedForExtracts(e, p);
  }

  lemma ConsolidatedIsCanonical(e: seq<Statement>)
    requires CanonicalPolicy(e)
    ensures forall s | s in Consolidated(e) :: Canonical(s)
    ensures OneKeyPerProvider(Consolidated(e))
  {
    forall s | s in Consolidated(e) && Extract(s).Some?
      ensures SubKey(e, Extract(s).value.provider) == Some(Extract(s).value.subKey)
      ensures Canonical(s)
    {
      ConsolidatedKey(e, s);
      ExtractIsProper(s);
      var p := Extract(s).value.provider;
      WrittenIsCanonical(p, SubKey(e, p).value, Distinct(PatternTrail(e, p)));
    }
  }

  lemma UpdateStaysCanonical(ss: seq<Statement>, g: Grant)
    requires CanonicalPolicy(ss) && Fits(ss, g)
    ensures CanonicalPolicy(Merged(ss, g))
  {
    DedupedIsCanonical(ss);
    DedupedLaws(ss);
    ExtendedIsCanonical(Deduped(ss), g);
    ConsolidatedIsCanonical(Extended(Deduped(ss), g));
    SingleProviderIsKept(ss, g);
  }

  lemma UpdateKeepsFit(ss: seq<Statement>, g: Grant, h: Grant)
    requires CanonicalPolicy(ss) && Fits(ss, g) && Fits(ss, h)
    requires g.provider == h.provider ==> g.path == h.path
    ensures Fits(Merged(ss, g), h)
  {
    var e := Extended(Deduped(ss), g);
    DedupedLaws(ss);
    AddedExtracts(g);
    forall s | s in Merged(ss, g) && ExtractsFor(s, h.provider) ensures Extract(s).value.subKey == h.Key() {
      ConsolidatedKey(e, s);
      SubKeyMembers(e, h.provider);
      var t :| t in e && ExtractsFor(t, h.provider) && Extract(t).value.subKey == SubKey(e, h.provider).value;
      ExtendedMembers(Deduped(ss), g, t);
    }
  }

  /** The grants of a run agree with the policy and with one another on each provider's key. */
  predicate RunFits(ss: seq<Statement>, gs: seq<Grant>) {
    && (forall g | g in gs :: Fits(ss, g))
    && (forall g, h | g in gs && h in gs :: g.provider == h.provider ==> g.path == h.path)
  }

  /** The main result over runs: starting from a canonical policy, after any sequence of updates a
      request is admitted exactly when the original policy does not deny it, and either the original
      policy allowed it or one of the requested grants admits it. */
  lemma {:induction false} RunMeaning(ss: seq<Statement>, gs: seq<Grant>, r: Request, rest: RestMeaning)
    requires CanonicalPolicy(ss) && RunFits(ss, gs)
    ensures Admits(MergedRun(ss, gs), r, rest) <==>
      !Applies(ss, "Deny", r, rest) && (Applies(ss, "Allow", r, rest) || exists g | g in gs :: GrantAdmits(g, r))
  {
    RunApplies(ss, gs, r, rest, []);
  }

  lemma {:induction false} RunApplies(ss: seq<Statement>, gs: seq<Grant>, r: Request, rest: RestMeaning, later: seq<Grant>)
    requires CanonicalPolicy(ss) && RunFits(ss, gs + later)
    ensures CanonicalPolicy(MergedRun(ss, gs)) && RunFits(MergedRun(ss, gs), later)
    ensures Applies(MergedRun(ss, gs), "Deny", r, rest) <==> Applies(ss, "Deny", r, rest)
    ensures Applies(MergedRun(ss, gs), "Allow", r, rest) <==>
      Applies(ss, "Allow", r, rest) || exists g | g in gs :: GrantAdmits(g, r)
    decreases |gs|
  {
    assert forall g | g in later :: g in gs + later;
    if gs != [] {
      var init, last := gs[..|gs| - 1], gs[|gs| - 1];
      assert gs + later == init + ([last] + later);
      assert gs == init + [last];
      RunApplies(ss, init, r, rest, [last] + later);
      var before := MergedRun(ss, init);
      assert last in [last] + later;
      UpdateMeaning(before, last, r, rest);
      UpdateStaysCanonical(before, last);
      forall h | h in later ensures Fits(MergedRun(ss, gs), h) {
        assert h in [last] + later;
        UpdateKeepsFit(before, last, h);
      }
    }
  }

  /** And the trust check finds every grant of the run. */
  lemma RunIsFound(ss: seq<Statement>, gs: seq<Grant>, g: Grant)
    requires CanonicalPolicy(ss) && RunFits(ss, gs) && g in gs
    ensures ReaderFinds(MergedRun(ss, gs), g)
  {
    var last := |gs| - 1;
    var e := Extended(Deduped(MergedRun(ss, gs[..last])), gs[last]);
    RunIsRead(ss, gs, g);
    ConsolidatedTrails(e, g.provider);
    DistinctLaws(PatternTrail(e, g.provider));
    ReaderOnConsolidated(e, g);
  }

  lemma RunIsRead(ss: seq<Statement>, gs: seq<Grant>, g: Grant)
    requires CanonicalPolicy(ss) && RunFits(ss, gs) && g in gs
    ensures SubKey(MergedRun(ss, gs), g.provider) == Some(g.Key())
    ensures g.pattern in PatternTrail(MergedRun(ss, gs), g.provider)
  {
    var t := MergedRun(ss, gs);
    assert forall h :: h in gs + [g] <==> h in gs;
    RunApplies(ss, gs, Request("", "", map[]), (others, extra, r) => false, [g]);
    RunGrants(ss, gs);
    assert (g.provider, g.pattern) in Requested(gs);
    assert g in [g] && Fits(t, g);
    PatternTrailMembers(t, g.provider);
    SubKeyMembers(t, g.provider);
  }

  // ---------------------------------------------------------------------------
  // The policy document
  // ---------------------------------------------------------------------------

  datatype Item = NotAStatement | Item(statement: Statement)

  /** The document's "Statement" member as read from JSON. */
  datatype StatementMember = NotAList | Items(items: seq<Item>)

  function StatementsOf(items: seq<Item>): seq<Statement> {
    if items == [] then []
    else
      var last := items[|items| - 1];
      StatementsOf(items[..|items| - 1]) + (if last.Item? then [last.statement] else [])
  }

  /** The statements of a list in order, whatever is not one being left out. */
  lemma {:induction false} StatementsOfLaws(a: seq<Item>, b: seq<Item>, s: Statement)
    ensures StatementsOf([]) == [] && StatementsOf([Item(s)]) == [s] && StatementsOf([NotAStatement]) == []
    ensures StatementsOf(a + b) == StatementsOf(a) + StatementsOf(b)
  {
    assert [Item(s)][..0] == [] && [NotAStatement][..0] == [];
    if b == [] {
      assert a + b == a;
    } else {
      var init, last := b[..|b| - 1], b[|b| - 1];
      SplitLast(a, b);
      StatementsOfLaws(a, init, s);
      Associative(StatementsOf(a), StatementsOf(init), if last.Item? then [last.statement] else []);
    }
  }

  function StatementList(m: StatementMember): seq<Statement> {
    if m.NotAList? then [] else StatementsOf(m.items)
  }

  function AsItems(ss: seq<Statement>): (items: seq<Item>)
    ensures |items| == |ss|
  {
    seq(|ss|, i requires 0 <= i < |ss| => Item(ss[i]))
  }

  /** The statement itself is there, or one like it in every member. */
  predicate KeptIn(ss: seq<Statement>, s: Statement) {
    exists t | t in ss :: Alike(s, t)
  }

  lemma RestIsKept(ss: seq<Statement>, g: Grant)
    ensures g.Proper() ==> forall s | s in ss && Extract(s).None? :: KeptIn(Merged(ss, g), s)
  {
    forall s | g.Proper() && s in ss && Extract(s).None? ensures KeptIn(Merged(ss, g), s) {
      UpdateKeepsTheRest(ss, g, s);
    }
  }

  class TrustPolicyDocument {
    var member: StatementMember

    constructor (m: StatementMember)
      ensures member == m
    {
      member := m;
    }

    /** Rewrites the document's statements in place; reports whether the grant was there before. */
    method MergeSparkPilotTrustStatement(g: Grant) returns (alreadyPresent: bool)
      modifies this
      ensures alreadyPresent == AlreadyPresent(Deduped(StatementList(old(member))), g)
      ensures member == Items(AsItems(Merged(StatementList(old(member)), g)))
      ensures g.Proper() ==>
        forall s | s in StatementList(old(member)) && Extract(s).None? :: KeptIn(StatementList(member), s)
    {
      var items := if member.NotAList? then [] else member.items;
      var statements: seq<Statement> := [];
      for i := 0 to |items|
        invariant statements == StatementsOf(items[..i])
      {
        assert items[..i + 1][..i] == items[..i];
        if items[i].Item? {
          statements := statements + [items[i].statement];
        }
      }
      assert items[..|items|] == items;
      statements := DedupeTrustStatements(statements);
      alreadyPresent := false;
      for i := 0 to |statements|
        invariant alreadyPresent == AlreadyPresent(statements[..i], g)
      {
        assert forall s :: s in statements[..i + 1] <==> s in statements[..i] || s == statements[i];
        if StatementHasGrant(statements[i], g) {
          alreadyPresent := true;
        }
      }
      assert statements[..|statements|] == statements;
      if !alreadyPresent {
        statements := statements + [Added(g)];
      }
      statements := ConsolidateStatements(statements);
      member := Items(AsItems(statements));
      WrittenStatements(statements);
      RestIsKept(StatementList(old(member)), g);
    }
  }

  /** Reading back a document the update wrote gives the statements it wrote. */
  lemma {:induction false} WrittenStatements(ss: seq<Statement>)
    ensures StatementList(Items(AsItems(ss))) == ss
  {
    if ss != [] {
      var init := ss[..|ss| - 1];
      WrittenStatements(init);
      assert AsItems(ss)[..|ss| - 1] == AsItems(init);
    }
  }
}
