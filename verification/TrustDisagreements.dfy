/** Policies on which writer, reader and a repeated update disagree: one for each way of failing. */
module TrustDisagreements {
  import opened Text
  import opened TrustPolicy
  import opened TrustExactness
  import opened TrustMerge

  lemma DedupedAlone(s: Statement)
    ensures Deduped([s]) == [s]
  {
    DedupedFixpoint([s]);
  }

  lemma HolderHasGrant(first: string, g: Grant)
    ensures StatementHasGrant(ForProviders([first, g.provider], g.Key(), g.pattern), g)
  {
    var e := Entry(g.Key(), One(g.pattern));
    assert AsStrList(e.values) == [g.pattern] && g.pattern in [g.pattern];
    assert Lookup([e], g.Key()) == [g.pattern];
    assert AsStrList(One(WEB_IDENTITY)) == [WEB_IDENTITY];
    assert g.provider in [first, g.provider];
  }

  /** A statement that names another provider first: the writer takes the grant for present and adds
      nothing, consolidation hands the pattern to the other provider, the reader does not find the grant,
      and repeating the update changes the policy. */
  lemma SecondProviderMisleads(first: string, g: Grant)
    requires g.Proper() && first != "" && first != g.provider
    ensures var ss := [ForProviders([first, g.provider], g.Key(), g.pattern)];
      && AlreadyPresent(Deduped(ss), g)
      && !ReaderFinds(Merged(ss, g), g)
      && Merged(Merged(ss, g), g) != Merged(ss, g)
  {
    var s := ForProviders([first, g.provider], g.Key(), g.pattern);
    PathKeyEndsInSub(g.path);
    ForProvidersExtracts([first, g.provider], g.Key(), g.pattern);
    OneStatement(s, g.provider);
    DedupedAlone(s);
    HolderHasGrant(first, g);
    assert s in [s];
    WriterAndReader([s], g);
    RepeatedMerge([s], g);
  }

  /** A statement of the same provider under another key: whatever the update adds is filed under that
      key, where the reader does not look. */
  lemma OtherKeyHides(key: string, g: Grant)
    requires g.Proper() && EndsWith(key, SUB_SUFFIX) && key != g.Key()
    ensures !ReaderFinds(Merged([MergedStatement(g.provider, key, [g.pattern])], g), g)
  {
    var s := MergedStatement(g.provider, key, [g.pattern]);
    assert g.pattern in [g.pattern];
    MergedExtracts(g.provider, key, [g.pattern]);
    OneStatement(s, g.provider);
    WriterAndReader([s], g);
  }
}
