/** When the consensus on committed roots does not depend on the order of maps: reports of one chain
    are sorted by their start only. */
module ExecCommitOrder {
  import opened CcipTypes
  import opened Sorting
  import opened ExecTypes
  import opened ExecCommitVotes
  import opened ExecCommitConsensus
  import opened ExecCommitSafety

  /** No two kept roots of one chain start at the same number. */
  ghost predicate DistinctStarts(aos: seq<AttributedObservation>, fChain: map<ChainSelector, nat>) {
    forall k, j ::
      Kept(aos, fChain, k) && Kept(aos, fChain, j) && k.source == j.source && k.range.start == j.range.start ==>
        k == j
  }

  /** r is the only possible result. */
  ghost predicate Determined(aos: seq<AttributedObservation>, fChain: map<ChainSelector, nat>, r: CommitObservations) {
    forall b :: IsCommitConsensus(aos, fChain, b) ==> b == r
  }

  // ---------- distinct starts determine the result ----------

  lemma SameExecuted(a: seq<SeqNum>, b: seq<SeqNum>)
    requires StrictlyIncreasing(a) && StrictlyIncreasing(b) && forall s: SeqNum :: s in a <==> s in b
    ensures a == b
  {
    AscendingByUnique(a, b, (s: SeqNum) => s as int);
  }

  /** A kept root has only one report. */
  lemma EntryUnique(aos: seq<AttributedObservation>, fChain: map<ChainSelector, nat>, c: ChainSelector, d: CommitData,
                    e: CommitData)
    requires IsEntry(aos, fChain, c, d) && IsEntry(aos, fChain, c, e) && KeyOf(c, d) == KeyOf(c, e)
    ensures d == e
  {
    SameExecuted(d.executed, e.executed);
  }

  lemma EntryInOther(aos: seq<AttributedObservation>, fChain: map<ChainSelector, nat>, a: CommitObservations,
                     b: CommitObservations,
                     c: ChainSelector, i: nat)
    requires IsCommitConsensus(aos, fChain, a) && IsCommitConsensus(aos, fChain, b) && c in a && i < |a[c]|
    ensures c in b && a[c][i] in b[c]
  {
    assert IsEntry(aos, fChain, c, a[c][i]);
    var k := KeyOf(c, a[c][i]);
    assert Listed(c, b[c], k);
    var j :| 0 <= j < |b[c]| && KeyOf(c, b[c][j]) == k;
    assert IsEntry(aos, fChain, c, b[c][j]);
    EntryUnique(aos, fChain, c, a[c][i], b[c][j]);
  }

  lemma StartsAscend(aos: seq<AttributedObservation>, fChain: map<ChainSelector, nat>, r: CommitObservations,
                     c: ChainSelector)
    requires IsCommitConsensus(aos, fChain, r) && c in r && DistinctStarts(aos, fChain)
    ensures AscendingBy(r[c], (d: CommitData) => d.range.start as int)
  {
    var key := (d: CommitData) => d.range.start as int;
    forall i, j | 0 <= i < j < |r[c]|
      ensures key(r[c][i]) < key(r[c][j])
    {
      assert IsEntry(aos, fChain, c, r[c][i]) && IsEntry(aos, fChain, c, r[c][j]);
      assert KeyOf(c, r[c][i]) != KeyOf(c, r[c][j]);
    }
  }

  lemma ChainUnique(aos: seq<AttributedObservation>, fChain: map<ChainSelector, nat>, a: CommitObservations,
                    b: CommitObservations, c: ChainSelector)
    requires IsCommitConsensus(aos, fChain, a) && IsCommitConsensus(aos, fChain, b) && DistinctStarts(aos, fChain)
    requires c in a
    ensures c in b && a[c] == b[c]
  {
    EntryInOther(aos, fChain, a, b, c, 0);
    forall i | 0 <= i < |a[c]|
      ensures a[c][i] in b[c]
    {
      EntryInOther(aos, fChain, a, b, c, i);
    }
    forall i | 0 <= i < |b[c]|
      ensures b[c][i] in a[c]
    {
      EntryInOther(aos, fChain, b, a, c, i);
    }
    StartsAscend(aos, fChain, a, c);
    StartsAscend(aos, fChain, b, c);
    AscendingByUnique(a[c], b[c], (d: CommitData) => d.range.start as int);
  }

  lemma ConsensusUnique(aos: seq<AttributedObservation>, fChain: map<ChainSelector, nat>, a: CommitObservations,
                        b: CommitObservations)
    requires IsCommitConsensus(aos, fChain, a) && IsCommitConsensus(aos, fChain, b) && DistinctStarts(aos, fChain)
    ensures a == b
  {
    forall c | c in a
      ensures c in b && a[c] == b[c]
    {
      ChainUnique(aos, fChain, a, b, c);
    }
    forall c | c in b
      ensures c in a
    {
      ChainUnique(aos, fChain, b, a, c);
    }
  }

  // ---------- equal starts do not ----------

  /** The reports with those at m and m + 1 exchanged. */
  function Swapped(reports: seq<CommitData>, m: nat): seq<CommitData>
    requires m + 1 < |reports|
  {
    reports[m := reports[m + 1]][m + 1 := reports[m]]
  }

  lemma SwappedEntries(aos: seq<AttributedObservation>, fChain: map<ChainSelector, nat>, c: ChainSelector,
                       reports: seq<CommitData>, m: nat)
    requires AreEntries(aos, fChain, c, reports) && m + 1 < |reports|
    ensures AreEntries(aos, fChain, c, Swapped(reports, m))
    ensures forall k :: Listed(c, reports, k) ==> Listed(c, Swapped(reports, m), k)
  {
    var s := Swapped(reports, m);
    forall k | Listed(c, reports, k)
      ensures Listed(c, s, k)
    {
      var i :| 0 <= i < |reports| && KeyOf(c, reports[i]) == k;
      var j := if i == m then m + 1 else if i == m + 1 then m else i;
      assert KeyOf(c, s[j]) == k;
    }
  }

  lemma SwappedOrder(reports: seq<CommitData>, m: nat)
    requires SortedBy(reports, (d: CommitData) => d.range.start as int) && m + 1 < |reports|
    requires reports[m].range.start == reports[m + 1].range.start
    ensures SortedBy(Swapped(reports, m), (d: CommitData) => d.range.start as int)
  {
    var key := (d: CommitData) => d.range.start as int;
    var s := Swapped(reports, m);
    assert forall i :: 0 <= i < |s| ==> key(s[i]) == key(reports[i]);
  }

  /** Two neighbours with the same start may stand either way round. */
  lemma SwappedIsConsensus(aos: seq<AttributedObservation>, fChain: map<ChainSelector, nat>, r: CommitObservations,
                           c: ChainSelector, m: nat,
                           r': CommitObservations)
    requires IsCommitConsensus(aos, fChain, r) && c in r && m + 1 < |r[c]|
    requires r[c][m].range.start == r[c][m + 1].range.start && r' == r[c := Swapped(r[c], m)]
    ensures IsCommitConsensus(aos, fChain, r') && r' != r
  {
    SwappedEntries(aos, fChain, c, r[c], m);
    SwappedOrder(r[c], m);
    forall k | Kept(aos, fChain, k)
      ensures k.source in r' && Listed(k.source, r'[k.source], k)
    {
      assert Listed(k.source, r[k.source], k);
    }
    assert KeyOf(c, r[c][m]) != KeyOf(c, r[c][m + 1]);
    assert r'[c][m] == r[c][m + 1];
  }

  lemma EqualNeighbours(c: ChainSelector, reports: seq<CommitData>, k: RootData, j: RootData) returns (m: nat)
    requires SortedBy(reports, (d: CommitData) => d.range.start as int)
    requires Listed(c, reports, k) && Listed(c, reports, j) && k != j && k.range.start == j.range.start
    ensures m + 1 < |reports| && reports[m].range.start == reports[m + 1].range.start
  {
    var a :| 0 <= a < |reports| && KeyOf(c, reports[a]) == k;
    var b :| 0 <= b < |reports| && KeyOf(c, reports[b]) == j;
    m := if a < b then a else b;
    SortedStep(reports, m, if a < b then b else a);
  }

  lemma SortedStep(reports: seq<CommitData>, m: nat, n: nat)
    requires SortedBy(reports, (d: CommitData) => d.range.start as int) && m < n < |reports|
    ensures reports[m].range.start <= reports[m + 1].range.start <= reports[n].range.start
  {
    var key := (d: CommitData) => d.range.start as int;
    assert key(reports[m]) <= key(reports[m + 1]);
    if m + 1 < n {
      assert key(reports[m + 1]) <= key(reports[n]);
    }
  }

  /** The votes determine the result exactly if no two kept roots of one chain start at the same number. */
  lemma DeterminedExactly(aos: seq<AttributedObservation>, fChain: map<ChainSelector, nat>, r: CommitObservations)
    requires IsCommitConsensus(aos, fChain, r)
    ensures Determined(aos, fChain, r) <==> DistinctStarts(aos, fChain)
  {
    if DistinctStarts(aos, fChain) {
      forall b | IsCommitConsensus(aos, fChain, b)
        ensures b == r
      {
        ConsensusUnique(aos, fChain, b, r);
      }
    } else {
      var k, j :| Kept(aos, fChain, k) && Kept(aos, fChain, j) && k.source == j.source
        && k.range.start == j.range.start && k != j;
      assert Listed(k.source, r[k.source], k) && Listed(k.source, r[k.source], j);
      var m := EqualNeighbours(k.source, r[k.source], k, j);
      SwappedIsConsensus(aos, fChain, r, k.source, m, r[k.source := Swapped(r[k.source], m)]);
    }
  }

  // ---------- honest oracles that see one chain ----------

  lemma KeptByHonest(aos: seq<AttributedObservation>, fChain: map<ChainSelector, nat>, faulty: set<OracleId>,
                     k: RootData)
    returns (i: int, n: int)
    requires Accepted(aos) && FewFaultyBackers(aos, fChain, faulty) && Kept(aos, fChain, k)
    ensures HonestReport(aos, faulty, k.source, i, n) && KeyOf(k.source, aos[i].obs.commitReports[k.source][n]) == k
  {
    VotesAreOracles(aos, k, None);
    i := HonestBacker(aos, faulty, fChain[k.source], k, None);
    var reports := aos[i].obs.commitReports[k.source];
    n :| 0 <= n < |reports| && KeyOf(k.source, reports[n]) == k;
  }

  /** Two honest reports of one chain with the same start are about the same root. */
  lemma SameStartSameRoot(aos: seq<AttributedObservation>, faulty: set<OracleId>, c: ChainSelector,
                          a: int, m: int, b: int, n: int, k: RootData, j: RootData)
    requires HonestConsistent(aos, faulty) && HonestReport(aos, faulty, c, a, m) && HonestReport(aos, faulty, c, b, n)
    requires KeyOf(c, aos[a].obs.commitReports[c][m]) == k && KeyOf(c, aos[b].obs.commitReports[c][n]) == j
    requires k.range.start == j.range.start
    ensures k == j
  {
    assert aos[a].obs.commitReports[c][m].range == k.range && aos[b].obs.commitReports[c][n].range == j.range;
  }

  lemma HonestStartsDistinct(aos: seq<AttributedObservation>, fChain: map<ChainSelector, nat>, faulty: set<OracleId>)
    requires Accepted(aos) && FewFaultyBackers(aos, fChain, faulty) && HonestConsistent(aos, faulty)
    ensures DistinctStarts(aos, fChain)
  {
    forall k, j | Kept(aos, fChain, k) && Kept(aos, fChain, j) && k.source == j.source && k.range.start == j.range.start
      ensures k == j
    {
      var a, m := KeptByHonest(aos, fChain, faulty, k);
      var b, n := KeptByHonest(aos, fChain, faulty, j);
      SameStartSameRoot(aos, faulty, k.source, a, m, b, n, k, j);
    }
  }

  /** If the honest oracles see one chain and few backers are faulty, all oracles compute the same result. */
  lemma BackedConsensusDetermined(aos: seq<AttributedObservation>, fChain: map<ChainSelector, nat>,
                                  faulty: set<OracleId>,
                                  a: CommitObservations, b: CommitObservations)
    requires Accepted(aos) && FewFaultyBackers(aos, fChain, faulty) && HonestConsistent(aos, faulty)
    requires IsCommitConsensus(aos, fChain, a) && IsCommitConsensus(aos, fChain, b)
    ensures a == b
  {
    HonestStartsDistinct(aos, fChain, faulty);
    ConsensusUnique(aos, fChain, a, b);
  }

  // ---------- an input with two results ----------

  const SOURCE: ChainSelector := 3

  const DEST: ChainSelector := 1

  const VIEW_F: map<ChainSelector, nat> := map[SOURCE := 1, DEST := 2]

  /** A report of the numbers 5 to end with the given root. */
  function ReportTo(root: Bytes32, end: SeqNum): CommitData {
    CommitData(SOURCE, 1, 0, 0, root, SeqNumRange(5, end), [], [], [], [])
  }

  function Sees(oracle: OracleId, root: Bytes32, end: SeqNum): AttributedObservation {
    AttributedObservation(oracle, OnlyF(VIEW_F).(commitReports := map[SOURCE := [ReportTo(root, end)]]))
  }

  /** Two oracles see root 10 for the numbers 5 to 7, two see root 11 for 5 to 9, and one sees nothing. */
  function TwoViews(): seq<AttributedObservation> {
    [Sees(0, 10, 7), Sees(1, 10, 7), Sees(2, 11, 9), Sees(3, 11, 9), AttributedObservation(4, OnlyF(VIEW_F))]
  }

  lemma TwoViewsAccepted()
    ensures Accepted(TwoViews())
  {
  }

  lemma TwoViewsBackers(k: RootData)
    ensures k == KeyOf(SOURCE, ReportTo(10, 7)) ==> {0, 1} <= Backers(TwoViews(), k, None)
    ensures k == KeyOf(SOURCE, ReportTo(11, 9)) ==> {2, 3} <= Backers(TwoViews(), k, None)
    ensures Backers(TwoViews(), k, None) != {} ==>
              k == KeyOf(SOURCE, ReportTo(10, 7)) || k == KeyOf(SOURCE, ReportTo(11, 9))
  {
    var aos := TwoViews();
    OneReportBacks(10, 7, k);
    OneReportBacks(11, 9, k);
    assert aos[0].oracle == 0 && aos[1].oracle == 1 && aos[2].oracle == 2 && aos[3].oracle == 3;
    assert aos[4].obs.commitReports == map[];
  }

  lemma OneReportBacks(root: Bytes32, end: SeqNum, k: RootData)
    ensures forall o :: Backs(Sees(o, root, end).obs.commitReports, k, None) <==>
            k == KeyOf(SOURCE, ReportTo(root, end))
  {
    var reports := [ReportTo(root, end)];
    assert reports[0] == ReportTo(root, end);
    assert k.source == SOURCE ==> (ListBacks(reports, k, None) <==> KeyOf(SOURCE, reports[0]) == k);
  }

  lemma SupportIsBacking(aos: seq<AttributedObservation>, fChain: map<ChainSelector, nat>, k: RootData,
                         backers: set<OracleId>)
    requires Accepted(aos) && backers == Backers(aos, k, None)
    ensures Supported(aos, fChain, k) <==> k.source in fChain && |backers| >= fChain[k.source] + 1
  {
    VotesAreOracles(aos, k, None);
  }

  lemma TwoViewsSupported(fChain: map<ChainSelector, nat>, k: RootData)
    requires fChain == VIEW_F
    ensures Supported(TwoViews(), fChain, k) <==>
            k == KeyOf(SOURCE, ReportTo(10, 7)) || k == KeyOf(SOURCE, ReportTo(11, 9))
  {
    TwoViewsAccepted();
    TwoViewsBackers(k);
    var backers := Backers(TwoViews(), k, None);
    SupportIsBacking(TwoViews(), fChain, k, backers);
    AtLeastTwo(backers, 0, 1);
    AtLeastTwo(backers, 2, 3);
  }

  lemma AtLeastTwo(s: set<OracleId>, a: OracleId, b: OracleId)
    requires a != b
    ensures {a, b} <= s ==> |s| >= 2
  {
    if {a, b} <= s {
      SubsetSize({a, b}, s);
    }
  }

  lemma TwoViewsKept(fChain: map<ChainSelector, nat>, k: RootData)
    requires fChain == VIEW_F
    requires k == KeyOf(SOURCE, ReportTo(10, 7)) || k == KeyOf(SOURCE, ReportTo(11, 9))
    ensures Kept(TwoViews(), fChain, k)
  {
    TwoViewsSupported(fChain, k);
    forall j | Supported(TwoViews(), fChain, j) && j.merkleRoot == k.merkleRoot
      ensures j == k
    {
      TwoViewsSupported(fChain, j);
    }
  }

  lemma TwoViewsEntry(fChain: map<ChainSelector, nat>, d: CommitData)
    requires fChain == VIEW_F && (d == ReportTo(10, 7) || d == ReportTo(11, 9))
    ensures IsEntry(TwoViews(), fChain, SOURCE, d)
  {
    var k := KeyOf(SOURCE, d);
    TwoViewsKept(fChain, k);
    TwoViewsAccepted();
    forall s: SeqNum
      ensures VotesFor(TwoViews(), k, Some(s)) == 0
    {
      VotesAreOracles(TwoViews(), k, Some(s));
      NothingExecuted(k, s);
    }
  }

  lemma NothingExecuted(k: RootData, s: SeqNum)
    ensures Backers(TwoViews(), k, Some(s)) == {}
  {
    var aos := TwoViews();
    forall i | 0 <= i < |aos|
      ensures !Backs(aos[i].obs.commitReports, k, Some(s))
    {
      assert SOURCE in aos[i].obs.commitReports ==> forall j :: 0 <= j < |aos[i].obs.commitReports[SOURCE]| ==>
               aos[i].obs.commitReports[SOURCE][j].executed == [];
    }
  }

  lemma FirstOrder(fChain: map<ChainSelector, nat>, r: CommitObservations)
    requires fChain == VIEW_F && r == map[SOURCE := [ReportTo(10, 7), ReportTo(11, 9)]]
    ensures IsCommitConsensus(TwoViews(), fChain, r)
  {
    TwoViewsEntry(fChain, ReportTo(10, 7));
    TwoViewsEntry(fChain, ReportTo(11, 9));
    var reports := r[SOURCE];
    assert reports[0] == ReportTo(10, 7) && reports[1] == ReportTo(11, 9);
    forall k | Kept(TwoViews(), fChain, k)
      ensures k.source in r && Listed(k.source, r[k.source], k)
    {
      TwoViewsSupported(fChain, k);
      assert KeyOf(SOURCE, reports[0]) == k || KeyOf(SOURCE, reports[1]) == k;
    }
  }

  lemma SecondOrder(aos: seq<AttributedObservation>, fChain: map<ChainSelector, nat>, r: CommitObservations,
                    r': CommitObservations)
    requires IsCommitConsensus(aos, fChain, r)
    requires r == map[SOURCE := [ReportTo(10, 7), ReportTo(11, 9)]]
    requires r' == map[SOURCE := [ReportTo(11, 9), ReportTo(10, 7)]]
    ensures IsCommitConsensus(aos, fChain, r') && r != r'
  {
    assert Swapped(r[SOURCE], 0) == r'[SOURCE];
    SwappedIsConsensus(aos, fChain, r, SOURCE, 0, r');
  }

  /** These accepted observations have two results with f = 1: both roots are kept and may stand in
      either order, so oracles can disagree. */
  lemma TwoResults(fChain: map<ChainSelector, nat>, r: CommitObservations, r': CommitObservations)
    requires fChain == VIEW_F
    requires r == map[SOURCE := [ReportTo(10, 7), ReportTo(11, 9)]]
    requires r' == map[SOURCE := [ReportTo(11, 9), ReportTo(10, 7)]]
    ensures Accepted(TwoViews())
    ensures IsCommitConsensus(TwoViews(), fChain, r) && IsCommitConsensus(TwoViews(), fChain, r') && r != r'
  {
    TwoViewsAccepted();
    FirstOrder(fChain, r);
    SecondOrder(TwoViews(), fChain, r, r');
  }
}
