/** The EMR release table and its synchronisation with the labels that the service lists. */
module ReleaseSync {
  import opened Text
  import opened ReleaseLabels

  datatype Status = Current | Deprecated | EndOfLife

  /** The columns that a sync compares before and after. */
  datatype Facts = Facts(status: Status, graviton: bool, lakeFormation: bool, upgradeTarget: Option<string>)

  datatype Row = Row(facts: Facts, source: string, lastSyncedAt: int)

  const SOURCE := "emr-containers"

  // ---------------------------------------------------------------------------
  // What a sync should record, read off the set of listed labels
  // ---------------------------------------------------------------------------

  /** The listed labels that rank above a label. */
  function Above(labels: set<string>, release: string): set<string> {
    set other | other in labels && Outranks(other, release)
  }

  predicate Superseded(labels: set<string>, release: string) {
    exists other :: other in labels && Valid(other) && VersionOf(other).major > VersionOf(release).major
  }

  /** The lifecycle of a label among those listed: out of life below the newest major version, current
      among the top three. */
  function Lifecycle(labels: set<string>, release: string): Status {
    if !Valid(release) then Deprecated
    else if Superseded(labels, release) then EndOfLife
    else if |Above(labels, release)| < 3 then Current
    else Deprecated
  }

  /** The label that everything else should move to: the highest in rank, or the last in label order
      when none has a version. */
  predicate IsLatest(labels: set<string>, release: string) {
    release in labels && forall other | other in labels :: other == release || Prefers(release, other)
  }

  function FactsOf(labels: set<string>, latest: string, release: string): Facts {
    var status := Lifecycle(labels, release);
    Facts(status,
          Valid(release) && !VersionLess(VersionOf(release), Version(6, 9, 0)),
          Valid(release) && !VersionLess(VersionOf(release), Version(7, 7, 0)),
          if status == Current then None else Some(latest))
  }

  /** The listed labels whose rows are missing or hold other facts. */
  function Stale(rows: map<string, Row>, labels: set<string>, latest: string): set<string> {
    set release | release in labels && (release !in rows || rows[release].facts != FactsOf(labels, latest, release))
  }

  /** The table once some of the listed labels are written: each of those has its facts, every other
      row is as it was. */
  ghost predicate Synced(before: map<string, Row>, rows: map<string, Row>, written: set<string>,
                         labels: set<string>, latest: string, now: int)
  {
    && rows.Keys == before.Keys + written
    && (forall release | release in written ::
          release in rows && rows[release] == Row(FactsOf(labels, latest, release), SOURCE, now))
    && (forall release | release in before && release !in written ::
          release in rows && rows[release] == before[release])
  }

  /** The two support flags, by version number: Graviton from 6.9 on, Lake Formation from 7.7 on. */
  lemma SupportThresholds(labels: set<string>, latest: string, release: string)
    ensures var facts := FactsOf(labels, latest, release);
      match ParseReleaseVersion(release)
      case None => !facts.graviton && !facts.lakeFormation
      case Some(v) =>
        && (facts.graviton <==> v.major > 6 || (v.major == 6 && v.minor >= 9))
        && (facts.lakeFormation <==> v.major > 7 || (v.major == 7 && v.minor >= 7))
  {
  }

  /** Three different labels of the set rank above this one. */
  predicate ThreeAbove(labels: set<string>, release: string) {
    exists a, b, c | a in labels && b in labels && c in labels ::
      a != b && a != c && b != c && Outranks(a, release) && Outranks(b, release) && Outranks(c, release)
  }

  /** The status spelled out: deprecated without a version; otherwise out of life when a newer major version
      is listed, deprecated when three others rank above, and else current. */
  lemma StatusSpelledOut(labels: set<string>, latest: string, release: string)
    ensures var status := FactsOf(labels, latest, release).status;
      match ParseReleaseVersion(release)
      case None => status == Deprecated
      case Some(v) =>
        if exists other | other in labels :: Valid(other) && VersionOf(other).major > v.major then status == EndOfLife
        else if ThreeAbove(labels, release) then status == Deprecated
        else status == Current
  {
    ThreeAboveExactly(labels, release);
  }

  predicate ThreeOf(all: set<string>) {
    exists a, b, c | a in all && b in all && c in all :: a != b && a != c && b != c
  }

  lemma ThreeOfExactly(all: set<string>)
    ensures ThreeOf(all) <==> |all| >= 3
  {
    if |all| >= 3 {
      var a :| a in all;
      var rest := all - {a};
      assert |rest| == |all| - 1;
      var b :| b in rest;
      assert |rest - {b}| == |rest| - 1;
      var c :| c in rest - {b};
    }
    if ThreeOf(all) {
      var a, b, c :| a in all && b in all && c in all && a != b && a != c && b != c;
      assert |{a, b, c}| == 3;
      SmallerSet({a, b, c}, all);
    }
  }

  lemma ThreeAboveExactly(labels: set<string>, release: string)
    ensures ThreeAbove(labels, release) <==> |Above(labels, release)| >= 3
  {
    ThreeOfExactly(Above(labels, release));
    assert forall a :: a in Above(labels, release) <==> a in labels && Outranks(a, release);
  }

  // ---------------------------------------------------------------------------
  // Rank in the sorted list
  // ---------------------------------------------------------------------------

  function Elements(labels: seq<string>): set<string> {
    set x | x in labels
  }

  ghost predicate RanksValid(sorted: seq<string>, labels: set<string>) {
    Ranked(sorted) && forall x :: x in sorted <==> x in labels && Valid(x)
  }

  lemma OutranksIsStrict(a: string, b: string)
    requires Outranks(a, b)
    ensures a != b && !Outranks(b, a)
  {
    PrefersIrreflexive(a);
    if Outranks(b, a) {
      PrefersTransitive(a, b, a);
    }
  }

  /** Above the label at an index of the sorted list are exactly the labels before it. */
  lemma AboveIsPrefix(sorted: seq<string>, labels: set<string>, i: nat)
    requires RanksValid(sorted, labels) && i < |sorted|
    ensures Above(labels, sorted[i]) == Elements(sorted[..i])
  {
    forall x ensures x in Above(labels, sorted[i]) <==> x in Elements(sorted[..i]) {
      AboveIsBefore(sorted, labels, i, x);
    }
  }

  lemma AboveIsBefore(sorted: seq<string>, labels: set<string>, i: nat, x: string)
    requires RanksValid(sorted, labels) && i < |sorted|
    ensures x in Above(labels, sorted[i]) <==> x in Elements(sorted[..i])
  {
    if x in Above(labels, sorted[i]) {
      assert x in sorted;
      var j :| 0 <= j < |sorted| && sorted[j] == x;
      OutranksIsStrict(x, sorted[i]);
      assert sorted[..i][j] == x;
    }
    if x in sorted[..i] {
      var j :| 0 <= j < i && sorted[..i][j] == x;
      assert Outranks(sorted[j], sorted[i]);
    }
  }

  lemma RankedIsDistinct(sorted: seq<string>)
    requires Ranked(sorted)
    ensures NoRepeats(sorted)
  {
    forall i, j | 0 <= i < j < |sorted| ensures sorted[i] != sorted[j] {
      OutranksIsStrict(sorted[i], sorted[j]);
    }
  }

  lemma OneMoreElement(labels: seq<string>, i: nat)
    requires NoRepeats(labels) && i < |labels|
    ensures Elements(labels[..i + 1]) == Elements(labels[..i]) + {labels[i]}
    ensures labels[i] !in Elements(labels[..i])
  {
    assert labels[..i + 1] == labels[..i] + [labels[i]];
    assert forall j | 0 <= j < i :: labels[j] != labels[i];
  }

  lemma OneMoreCounted(before: set<string>, x: string, all: set<string>)
    requires x !in before && all == before + {x}
    ensures |all| == |before| + 1
  {
  }

  lemma {:induction false} PrefixCount(items: seq<string>, i: nat)
    requires NoRepeats(items) && i <= |items|
    ensures |Elements(items[..i])| == i
  {
    if i == 0 {
      assert Elements(items[..0]) == {};
    } else {
      PrefixCount(items, i - 1);
      OneMoreElement(items, i - 1);
      OneMoreCounted(Elements(items[..i - 1]), items[i - 1], Elements(items[..i]));
    }
  }

  /** A valid label stands in the sorted list at the number of labels above it. */
  lemma TopThree(sorted: seq<string>, labels: set<string>, release: string)
    requires RanksValid(sorted, labels) && release in labels && Valid(release)
    ensures release in sorted[..if |sorted| < 3 then |sorted| else 3] <==> |Above(labels, release)| < 3
  {
    var i :| 0 <= i < |sorted| && sorted[i] == release;
    AboveIsPrefix(sorted, labels, i);
    RankedIsDistinct(sorted);
    PrefixCount(sorted, i);
    var top := sorted[..if |sorted| < 3 then |sorted| else 3];
    if i < 3 {
      assert top[i] == release;
    } else {
      forall j | 0 <= j < 3 ensures top[j] != release {
        OutranksIsStrict(sorted[j], sorted[i]);
      }
    }
  }

  lemma FirstIsLatest(sorted: seq<string>, labels: set<string>)
    requires RanksValid(sorted, labels) && sorted != []
    ensures IsLatest(labels, sorted[0])
    ensures forall release | release in labels && Valid(release) :: VersionOf(release).major <= VersionOf(sorted[0]).major
  {
    forall other | other in labels ensures other == sorted[0] || Prefers(sorted[0], other) {
      if Valid(other) {
        var j :| 0 <= j < |sorted| && sorted[j] == other;
        assert j > 0 ==> Outranks(sorted[0], sorted[j]);
      }
    }
  }

  lemma FirstLabelIsLatest(labels: seq<string>)
    requires Descending(labels) && labels != [] && forall i | 0 <= i < |labels| :: !Valid(labels[i])
    ensures IsLatest(Elements(labels), labels[0])
  {
  }

  /** What the loop computes for one label. */
  function StatusIn(sorted: seq<string>, currentLabels: set<string>, release: string): Status {
    if Valid(release) && sorted != [] && VersionOf(release).major < VersionOf(sorted[0]).major then EndOfLife
    else if release in currentLabels then Current
    else Deprecated
  }

  lemma StatusIsLifecycle(sorted: seq<string>, labels: set<string>, release: string)
    requires RanksValid(sorted, labels) && release in labels
    ensures StatusIn(sorted, Elements(sorted[..if |sorted| < 3 then |sorted| else 3]), release) == Lifecycle(labels, release)
  {
    if Valid(release) {
      assert release in sorted;
      TopThree(sorted, labels, release);
      FirstIsLatest(sorted, labels);
      assert sorted[0] in sorted;
    }
  }

  /** The loop writes one more label, whose row is still the one from before the sync. */
  lemma SyncedOneMore(before: map<string, Row>, rows: map<string, Row>, written: set<string>,
                      labels: set<string>, latest: string, now: int, release: string, facts: Facts)
    requires Synced(before, rows, written, labels, latest, now)
    requires release in labels && release !in written && facts == FactsOf(labels, latest, release)
    ensures release in Stale(before, labels, latest) <==> release !in rows || rows[release].facts != facts
    ensures Synced(before, rows[release := Row(facts, SOURCE, now)], written + {release}, labels, latest, now)
  {
  }

  lemma DescendingIsDistinct(labels: seq<string>)
    requires Descending(labels)
    ensures NoRepeats(labels)
  {
    forall i, j | 0 <= i < j < |labels| ensures labels[i] != labels[j] {
      TextIrreflexive(labels[i]);
      assert TextLess(labels[j], labels[i]);
    }
  }

  lemma LatestChosen(labels: seq<string>, valid: seq<string>, all: set<string>)
    requires Descending(labels) && labels != [] && all == Elements(labels) && RanksValid(valid, all)
    ensures IsLatest(all, if valid != [] then valid[0] else labels[0])
  {
    if valid != [] {
      FirstIsLatest(valid, all);
    } else {
      forall i | 0 <= i < |labels| ensures !Valid(labels[i]) {
        assert labels[i] in all;
      }
      FirstLabelIsLatest(labels);
    }
  }

  /** How many labels of a list are in a set. */
  function Hits(marked: set<string>, labels: seq<string>): nat {
    if labels == [] then 0
    else
      var last := |labels| - 1;
      Hits(marked, labels[..last]) + if labels[last] in marked then 1 else 0
  }

  lemma OneMoreHit(marked: set<string>, labels: seq<string>, i: nat)
    requires i < |labels|
    ensures Hits(marked, labels[..i + 1]) == Hits(marked, labels[..i]) + if labels[i] in marked then 1 else 0
  {
    assert labels[..i + 1][..i] == labels[..i];
  }

  lemma OneMoreMarked(marked: set<string>, before: set<string>, x: string)
    requires x !in before
    ensures |marked * (before + {x})| == |marked * before| + if x in marked then 1 else 0
  {
    if x in marked {
      assert marked * (before + {x}) == marked * before + {x};
    } else {
      assert marked * (before + {x}) == marked * before;
    }
  }

  lemma {:induction false} HitsCount(marked: set<string>, labels: seq<string>, i: nat, elements: set<string>)
    requires NoRepeats(labels) && i <= |labels| && elements == Elements(labels[..i])
    ensures Hits(marked, labels[..i]) == |marked * elements|
  {
    if i == 0 {
      NoneMarked(marked, elements);
    } else {
      var before := Elements(labels[..i - 1]);
      HitsCount(marked, labels, i - 1, before);
      OneMoreHit(marked, labels, i - 1);
      OneMoreElement(labels, i - 1);
      OneMoreMarked(marked, before, labels[i - 1]);
    }
  }

  lemma NoneMarked(marked: set<string>, elements: set<string>)
    requires forall x :: x !in elements
    ensures |marked * elements| == 0
  {
    assert marked * elements == {};
  }

  lemma AllHits(marked: set<string>, labels: seq<string>)
    requires NoRepeats(labels) && marked <= Elements(labels)
    ensures Hits(marked, labels) == |marked|
  {
    HitsCount(marked, labels, |labels|, Elements(labels));
    assert labels[..|labels|] == labels && marked * Elements(labels) == marked;
  }

  // ---------------------------------------------------------------------------
  // The sync
  // ---------------------------------------------------------------------------

  /** The two sorts and the label to move to. */
  method Sort(listed: seq<string>) returns (labels: seq<string>, valid: seq<string>, latest: string)
    requires listed != []
    ensures Descending(labels) && NoRepeats(labels) && Elements(labels) == Elements(listed)
    ensures RanksValid(valid, Elements(listed))
    ensures IsLatest(Elements(listed), latest)
  {
    labels := DistinctDescending(listed);
    DistinctDescendingLaws(listed);
    DescendingIsDistinct(labels);
    assert listed[0] in labels;
    valid := SortedByVersion(OnlyValid(labels));
    OnlyValidLaws(labels);
    SortedByVersionLaws(OnlyValid(labels));
    latest := if valid != [] then valid[0] else labels[0];
    LatestChosen(labels, valid, Elements(listed));
  }

  /** The facts of one label, decided in the loop's order: current, unless out of life. */
  method Classify(release: string, valid: seq<string>, currentLabels: set<string>, latest: string,
                  ghost labels: set<string>)
    returns (facts: Facts)
    requires RanksValid(valid, labels) && release in labels
    requires currentLabels == Elements(valid[..if |valid| < 3 then |valid| else 3])
    ensures facts == FactsOf(labels, latest, release)
  {
    StatusIsLifecycle(valid, labels, release);
    var status := Deprecated;
    if release in currentLabels {
      status := Current;
    }
    if Valid(release) && valid != [] {
      var newest := VersionOf(valid[0]);
      if VersionOf(release).major < newest.major {
        status := EndOfLife;
      }
    }
    var graviton := Valid(release) && !VersionLess(VersionOf(release), Version(6, 9, 0));
    var lakeFormation := Valid(release) && !VersionLess(VersionOf(release), Version(7, 7, 0));
    facts := Facts(status, graviton, lakeFormation, if status == Current then None else Some(latest));
  }

  class ReleaseTable {
    var rows: map<string, Row>

    constructor ()
      ensures rows == map[]
    {
      rows := map[];
    }

    /** Adds or overwrites the row of a label; whether it is new or its facts differ. */
    method WriteRow(release: string, facts: Facts, now: int) returns (differs: bool)
      modifies this
      ensures rows == old(rows)[release := Row(facts, SOURCE, now)]
      ensures differs <==> release !in old(rows) || old(rows)[release].facts != facts
    {
      var isNew := release !in rows;
      differs := isNew || rows[release].facts != facts;
      rows := rows[release := Row(facts, SOURCE, now)];
    }

    /** The loop over the sorted labels. */
    method WriteRows(labels: seq<string>, valid: seq<string>, latest: string, now: int, ghost all: set<string>)
      returns (changed: nat)
      requires NoRepeats(labels) && Elements(labels) == all && RanksValid(valid, all)
      modifies this
      ensures Synced(old(rows), rows, all, all, latest, now)
      ensures changed == |Stale(old(rows), all, latest)|
    {
      ghost var stale := Stale(rows, all, latest);
      var currentLabels := Elements(valid[..if |valid| < 3 then |valid| else 3]);
      ghost var done: set<string> := {};
      changed := 0;
      for i := 0 to |labels|
        invariant done == Elements(labels[..i])
        invariant Synced(old(rows), rows, done, all, latest, now)
        invariant changed == Hits(stale, labels[..i])
      {
        var release := labels[i];
        OneMoreElement(labels, i);
        var facts := Classify(release, valid, currentLabels, latest, all);
        SyncedOneMore(old(rows), rows, done, all, latest, now, release, facts);
        OneMoreHit(stale, labels, i);
        var differs := WriteRow(release, facts, now);
        if differs {
          changed := changed + 1;
        }
        done := done + {release};
      }
      assert labels[..|labels|] == labels;
      AllHits(stale, labels);
    }

    /** Sorts and classifies the listed labels and writes one row each; `changed` counts the rows that
        were missing or different. */
    method SyncEmrReleasesOnce(listed: seq<string>, now: int) returns (changed: nat, ghost latest: string)
      modifies this
      ensures listed == [] ==> changed == 0 && rows == old(rows)
      ensures listed != [] ==> IsLatest(Elements(listed), latest)
      ensures listed != [] ==> Synced(old(rows), rows, Elements(listed), Elements(listed), latest, now)
      ensures listed != [] ==> changed == |Stale(old(rows), Elements(listed), latest)|
    {
      latest := "";
      if listed == [] {
        return 0, latest;
      }
      var labels, valid, latestLabel := Sort(listed);
      latest := latestLabel;
      changed := WriteRows(labels, valid, latestLabel, now, Elements(listed));
    }
  }

  // ---------------------------------------------------------------------------
  // What a sync guarantees
  // ---------------------------------------------------------------------------

  function Severity(status: Status): nat {
    match status
    case Current => 0
    case Deprecated => 1
    case EndOfLife => 2
  }

  /** The rank order of a set of labels, as a list. */
  lemma {:induction false} Ranking(labels: set<string>) returns (sorted: seq<string>)
    ensures RanksValid(sorted, labels)
  {
    var listing := Listing(labels);
    var descending := DistinctDescending(listing);
    DistinctDescendingLaws(listing);
    OnlyValidLaws(descending);
    sorted := SortedByVersion(OnlyValid(descending));
    SortedByVersionLaws(OnlyValid(descending));
  }

  lemma {:induction false} Listing(labels: set<string>) returns (listing: seq<string>)
    ensures forall x :: x in listing <==> x in labels
    decreases |labels|
  {
    if labels == {} {
      listing := [];
    } else {
      var x :| x in labels;
      var rest := Listing(labels - {x});
      listing := [x] + rest;
    }
  }

  /** A strictly newer version never has a worse status. */
  lemma NewerIsNoWorse(labels: set<string>, newer: string, older: string)
    requires newer in labels && older in labels && Valid(newer) && Valid(older)
    requires VersionLess(VersionOf(older), VersionOf(newer))
    ensures Severity(Lifecycle(labels, newer)) <= Severity(Lifecycle(labels, older))
  {
    assert Outranks(newer, older);
    forall other | other in Above(labels, newer) ensures other in Above(labels, older) {
      PrefersTransitive(other, newer, older);
      assert VersionLess(VersionOf(older), VersionOf(other));
    }
    SmallerSet(Above(labels, newer), Above(labels, older));
  }

  lemma {:induction false} SmallerSet(a: set<string>, b: set<string>)
    requires a <= b
    ensures |a| <= |b|
  {
    assert b == a + (b - a);
  }

  function CurrentLabels(labels: set<string>): set<string> {
    set release | release in labels && Lifecycle(labels, release) == Current
  }

  /** At most three labels are current. */
  lemma AtMostThreeCurrent(labels: set<string>)
    ensures |CurrentLabels(labels)| <= 3
  {
    var sorted := Ranking(labels);
    var n := if |sorted| < 3 then |sorted| else 3;
    forall release | release in CurrentLabels(labels) ensures release in Elements(sorted[..n]) {
      TopThree(sorted, labels, release);
    }
    RankedIsDistinct(sorted);
    PrefixCount(sorted, n);
    SmallerSet(CurrentLabels(labels), Elements(sorted[..n]));
  }

  /** The latest label is the only one there can be; if any label has a version, it is current, has the
      newest version, and every other label that is not current is to move to it. */
  lemma LatestIsTheTarget(labels: set<string>, latest: string, other: string)
    requires IsLatest(labels, latest)
    ensures IsLatest(labels, other) ==> other == latest
    ensures (exists release :: release in labels && Valid(release)) ==>
      Valid(latest) && Lifecycle(labels, latest) == Current
    ensures other in labels && Valid(other) ==> Valid(latest) && !VersionLess(VersionOf(latest), VersionOf(other))
    ensures FactsOf(labels, latest, other).upgradeTarget ==
      if Lifecycle(labels, other) == Current then None else Some(latest)
  {
    if IsLatest(labels, other) && other != latest {
      PrefersTransitive(other, latest, other);
      PrefersIrreflexive(other);
    }
    if exists release :: release in labels && Valid(release) {
      assert Valid(latest);
      forall release | release in labels ensures release !in Above(labels, latest) {
        if Outranks(release, latest) {
          OutranksIsStrict(release, latest);
        }
      }
      assert Above(labels, latest) == {};
    }
  }

  /** Syncing the same labels again, in any order and with any repetitions, reports no change and
      leaves the facts of every row as they are. */
  lemma SecondSyncIsQuiet(before: map<string, Row>, rows: map<string, Row>, again: map<string, Row>,
                          labels: set<string>, latest: string, latestAgain: string, now: int, later: int)
    requires IsLatest(labels, latest) && IsLatest(labels, latestAgain)
    requires Synced(before, rows, labels, labels, latest, now)
    requires Synced(rows, again, labels, labels, latestAgain, later)
    ensures |Stale(rows, labels, latestAgain)| == 0
    ensures again.Keys == rows.Keys && forall release | release in rows :: again[release].facts == rows[release].facts
  {
    LatestIsTheTarget(labels, latest, latestAgain);
    assert Stale(rows, labels, latestAgain) == {};
  }

  // ---------------------------------------------------------------------------
  // The table as a whole
  // ---------------------------------------------------------------------------

  /** The labels whose rows say current. */
  function CurrentRows(rows: map<string, Row>): set<string> {
    set release | release in rows && rows[release].facts.status == Current
  }

  function CurrentAndUnlisted(before: map<string, Row>, labels: set<string>): nat {
    |CurrentLabels(labels)| + |CurrentRows(before) - labels|
  }

  lemma CurrentRowsAre(before: map<string, Row>, rows: map<string, Row>, labels: set<string>, latest: string, now: int)
    requires Synced(before, rows, labels, labels, latest, now)
    ensures CurrentRows(rows) == CurrentLabels(labels) + (CurrentRows(before) - labels)
  {
    forall x ensures x in CurrentRows(rows) <==> x in CurrentLabels(labels) || x in CurrentRows(before) - labels {
      CurrentRowIs(before, rows, labels, latest, now, x);
    }
  }

  lemma CurrentRowIs(before: map<string, Row>, rows: map<string, Row>, labels: set<string>, latest: string, now: int, x: string)
    requires Synced(before, rows, labels, labels, latest, now)
    ensures x in CurrentRows(rows) <==> x in CurrentLabels(labels) || x in CurrentRows(before) - labels
  {
    if x in labels {
      assert rows[x].facts == FactsOf(labels, latest, x);
    }
  }

  lemma DisjointSum(a: set<string>, b: set<string>)
    requires a !! b
    ensures |a + b| == |a| + |b|
  {
  }

  /** Rows of labels no longer listed keep their status: after a sync the table's current rows are the
      current labels and the rows that said so before and are not listed. There are at most three whenever
      every row that said current is still listed. */
  lemma CurrentInTheTable(before: map<string, Row>, rows: map<string, Row>, labels: set<string>, latest: string, now: int)
    requires Synced(before, rows, labels, labels, latest, now)
    ensures |CurrentRows(rows)| == CurrentAndUnlisted(before, labels)
    ensures CurrentRows(before) <= labels ==> |CurrentRows(rows)| <= 3
  {
    CurrentRowsAre(before, rows, labels, latest, now);
    DisjointSum(CurrentLabels(labels), CurrentRows(before) - labels);
    AtMostThreeCurrent(labels);
    if CurrentRows(before) <= labels {
      assert CurrentRows(before) - labels == {};
    }
  }

  lemma FirstSync(before: map<string, Row>, rows: map<string, Row>, labels: set<string>, latest: string, now: int)
    requires CurrentRows(before) == {} && Synced(before, rows, labels, labels, latest, now)
    ensures CurrentRows(rows) == CurrentLabels(labels)
  {
    CurrentRowsAre(before, rows, labels, latest, now);
  }

  lemma KeptApart(a: set<string>, labels: set<string>, others: set<string>)
    requires a <= labels && labels !! others
    ensures a - others == a
  {
  }

  lemma CurrentAreListed(labels: set<string>)
    ensures CurrentLabels(labels) <= labels
  {
  }

  /** So two syncs of disjoint label sets, of a table without current rows, leave the current labels of
      both. */
  lemma BothStayCurrent(before: map<string, Row>, rows: map<string, Row>, again: map<string, Row>, labels: set<string>,
                        others: set<string>, latest: string, latestAgain: string, now: int, later: int)
    requires labels !! others && CurrentRows(before) == {}
    requires Synced(before, rows, labels, labels, latest, now) && Synced(rows, again, others, others, latestAgain, later)
    ensures |CurrentRows(again)| == |CurrentLabels(labels)| + |CurrentLabels(others)|
  {
    FirstSync(before, rows, labels, latest, now);
    CurrentAreListed(labels);
    KeptApart(CurrentLabels(labels), labels, others);
    CurrentInTheTable(rows, again, others, latestAgain, later);
  }

  predicate OneMajor(labels: set<string>) {
    forall a, b | a in labels && b in labels :: Valid(a) && VersionOf(a).major == VersionOf(b).major
  }

  /** Up to three labels of one major version are all current. */
  lemma AllCurrent(labels: set<string>)
    requires |labels| <= 3 && OneMajor(labels)
    ensures CurrentLabels(labels) == labels
  {
    forall release | release in labels ensures Lifecycle(labels, release) == Current {
      OneIsCurrent(labels, release);
    }
  }

  lemma OneIsCurrent(labels: set<string>, release: string)
    requires |labels| <= 3 && OneMajor(labels) && release in labels
    ensures Lifecycle(labels, release) == Current
  {
    FewAbove(labels, release);
    SameMajor(labels, release, release);
    forall other | other in labels ensures VersionOf(other).major == VersionOf(release).major {
      SameMajor(labels, other, release);
    }
  }

  lemma SameMajor(labels: set<string>, a: string, b: string)
    requires OneMajor(labels) && a in labels && b in labels
    ensures Valid(a) && VersionOf(a).major == VersionOf(b).major
  {
  }

  lemma FewAbove(labels: set<string>, release: string)
    requires |labels| <= 3 && release in labels
    ensures |Above(labels, release)| < 3
  {
    forall other | other in Above(labels, release) ensures other in labels - {release} {
      OutranksIsStrict(other, release);
    }
    SmallerSet(Above(labels, release), labels - {release});
  }

  /** Two syncs, each of up to three labels of one major version, the sets being disjoint: as many current
      rows as labels, and so up to six. */
  lemma UpToSixCurrent(before: map<string, Row>, rows: map<string, Row>, again: map<string, Row>, labels: set<string>,
                       others: set<string>, latest: string, latestAgain: string, now: int, later: int)
    requires labels !! others && CurrentRows(before) == {}
    requires |labels| <= 3 && OneMajor(labels) && |others| <= 3 && OneMajor(others)
    requires Synced(before, rows, labels, labels, latest, now) && Synced(rows, again, others, others, latestAgain, later)
    ensures |CurrentRows(again)| == |labels| + |others|
  {
    AllCurrent(labels);
    AllCurrent(others);
    BothStayCurrent(before, rows, again, labels, others, latest, latestAgain, now, later);
  }

  /** The label of a version, from its digits. */
  function LabelOf(major: string, minor: string): string {
    "emr-" + (major + "." + (minor + "." + ("0" + "")))
  }

  lemma LabelOfLaws(major: char, minor: char)
    requires IsDigit(major) && IsDigit(minor)
    ensures Valid(LabelOf([major], [minor]))
    ensures VersionOf(LabelOf([major], [minor])) == Version(major as nat - '0' as nat, minor as nat - '0' as nat, 0)
  {
    OneDigit(major);
    OneDigit(minor);
    OneDigit('0');
    assert SpelledAs(LabelOf([major], [minor]), [major], [minor], "0", "");
    ParseOfSpelled(LabelOf([major], [minor]), [major], [minor], "0", "");
  }

  lemma OneDigit(c: char)
    requires IsDigit(c)
    ensures AllDigits([c]) && Number([c]) == c as nat - '0' as nat
  {
    assert [c][..0] == "";
    assert Number("") == 0;
  }

  /** Such as two labels of version 7 and then two of version 8: four rows are current. */
  lemma FourCurrent(before: map<string, Row>, rows: map<string, Row>, again: map<string, Row>,
                    latest: string, latestAgain: string, now: int, later: int)
    requires CurrentRows(before) == {}
    requires var labels := {LabelOf("7", "0"), LabelOf("7", "1")};
      Synced(before, rows, labels, labels, latest, now)
    requires var others := {LabelOf("8", "0"), LabelOf("8", "1")};
      Synced(rows, again, others, others, latestAgain, later)
    ensures |CurrentRows(again)| == 4
  {
    LabelOfLaws('7', '0');
    LabelOfLaws('7', '1');
    LabelOfLaws('8', '0');
    LabelOfLaws('8', '1');
    FourLabels(before, rows, again, LabelOf("7", "0"), LabelOf("7", "1"), LabelOf("8", "0"), LabelOf("8", "1"),
               latest, latestAgain, now, later);
  }

  lemma FourLabels(before: map<string, Row>, rows: map<string, Row>, again: map<string, Row>,
                   a: string, b: string, c: string, d: string,
                   latest: string, latestAgain: string, now: int, later: int)
    requires CurrentRows(before) == {} && Valid(a) && Valid(b) && Valid(c) && Valid(d)
    requires VersionOf(a).major == VersionOf(b).major != VersionOf(c).major == VersionOf(d).major
    requires VersionOf(a) != VersionOf(b) && VersionOf(c) != VersionOf(d)
    requires Synced(before, rows, {a, b}, {a, b}, latest, now) && Synced(rows, again, {c, d}, {c, d}, latestAgain, later)
    ensures |CurrentRows(again)| == 4
  {
    Pair(a, b, {a, b});
    Pair(c, d, {c, d});
    Apart(a, b, c, d);
    UpToSixCurrent(before, rows, again, {a, b}, {c, d}, latest, latestAgain, now, later);
  }

  lemma Pair(a: string, b: string, labels: set<string>)
    requires labels == {a, b} && Valid(a) && Valid(b)
    requires VersionOf(a).major == VersionOf(b).major && VersionOf(a) != VersionOf(b)
    ensures |labels| == 2 && OneMajor(labels)
  {
    TwoElements(a, b);
  }

  lemma TwoElements(a: string, b: string)
    requires a != b
    ensures |{a, b}| == 2
  {
  }

  lemma Apart(a: string, b: string, c: string, d: string)
    requires a != c && a != d && b != c && b != d
    ensures {a, b} !! {c, d}
  {
  }
}
