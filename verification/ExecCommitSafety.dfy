/** What the consensus on committed roots guarantees, and why its result is fit for the messages phase. */
module ExecCommitSafety {
  import opened CcipTypes
  import opened Sorting
  import opened ExecTypes
  import opened ExecValidation
  import opened ExecCommitVotes
  import opened ExecCommitConsensus
  import Votes
  import ExecObservation

  /** No merkle root occurs twice in the result, not even on different chains. */
  lemma RootsPairwiseDistinct(aos: seq<AttributedObservation>, fChain: map<ChainSelector, nat>, r: CommitObservations,
                              c: ChainSelector, i: nat, d: ChainSelector, j: nat)
    requires IsCommitConsensus(aos, fChain, r)
    requires c in r && i < |r[c]| && d in r && j < |r[d]|
    requires r[c][i].merkleRoot == r[d][j].merkleRoot
    ensures c == d && i == j
  {
    assert IsEntry(aos, fChain, c, r[c][i]) && IsEntry(aos, fChain, d, r[d][j]);
    assert KeyOf(c, r[c][i]) == KeyOf(d, r[d][j]);
  }

  /** A number that counts as executed in a root lies in its range, since every observation that
      says so has been checked. */
  lemma BackedIsInRange(aos: seq<AttributedObservation>, k: RootData, s: SeqNum)
    requires Accepted(aos) && Backers(aos, k, Some(s)) != {}
    ensures k.range.Contains(s)
  {
    var o :| o in Backers(aos, k, Some(s));
    var i :| 0 <= i < |aos| && Backs(aos[i].obs.commitReports, k, Some(s)) && aos[i].oracle == o;
    var reports := aos[i].obs.commitReports[k.source];
    var j :| 0 <= j < |reports| && KeyOf(k.source, reports[j]) == k && s in reports[j].executed;
    assert ExecutedInRange(reports[j]);
  }

  /** On accepted observations: f + 1 different oracles stand behind every report, its executed
      numbers are in strictly ascending order and in its range, and they are exactly those that
      f + 1 different oracles report as executed. */
  lemma ReportsAreVoted(aos: seq<AttributedObservation>, fChain: map<ChainSelector, nat>, r: CommitObservations,
                        c: ChainSelector, i: nat)
    requires Accepted(aos) && IsCommitConsensus(aos, fChain, r) && c in r && i < |r[c]|
    ensures c in fChain && |Backers(aos, KeyOf(c, r[c][i]), None)| >= fChain[c] + 1
    ensures StrictlyIncreasing(r[c][i].executed) && ExecutedInRange(r[c][i])
    ensures forall s: SeqNum :: s in r[c][i].executed <==> |Backers(aos, KeyOf(c, r[c][i]), Some(s))| >= fChain[c] + 1
  {
    var k := KeyOf(c, r[c][i]);
    assert IsEntry(aos, fChain, c, r[c][i]);
    VotesAreOracles(aos, k, None);
    forall s: SeqNum
      ensures s in r[c][i].executed <==> |Backers(aos, k, Some(s))| >= fChain[c] + 1
      ensures s in r[c][i].executed ==> k.range.Contains(s)
    {
      VotesAreOracles(aos, k, Some(s));
      if s in r[c][i].executed {
        BackedIsInRange(aos, k, s);
      }
    }
  }

  // ---------- with faulty oracles ----------

  /** Honest oracle i lists, at place j, a report of chain c. */
  ghost predicate HonestReport(aos: seq<AttributedObservation>, faulty: set<OracleId>, c: ChainSelector, i: int,
                               j: int) {
    0 <= i < |aos| && aos[i].oracle !in faulty && c in aos[i].obs.commitReports
      && 0 <= j < |aos[i].obs.commitReports[c]|
  }

  lemma BackersOfRoot(aos: seq<AttributedObservation>, k: RootData, s: Option<SeqNum>)
    ensures Backers(aos, k, s) <= Backers(aos, k, None)
  {
    forall i | 0 <= i < |aos| && Backs(aos[i].obs.commitReports, k, s)
      ensures Backs(aos[i].obs.commitReports, k, None)
    {
      var reports := aos[i].obs.commitReports[k.source];
      var j :| 0 <= j < |reports| && KeyOf(k.source, reports[j]) == k && (s.Some? ==> s.value in reports[j].executed);
    }
  }

  /** More than f backers of which at most f are faulty include an honest one. */
  lemma HonestBacker(aos: seq<AttributedObservation>, faulty: set<OracleId>, f: nat, k: RootData,
                     s: Option<SeqNum>) returns (i: int)
    requires |Backers(aos, k, s)| >= f + 1 && |Backers(aos, k, None) * faulty| <= f
    ensures 0 <= i < |aos| && aos[i].oracle !in faulty && Backs(aos[i].obs.commitReports, k, s)
  {
    BackersOfRoot(aos, k, s);
    SubsetSize(Backers(aos, k, s) * faulty, Backers(aos, k, None) * faulty);
    Votes.HonestRemainder(Backers(aos, k, s), faulty, f);
    assert |Backers(aos, k, s) - faulty| > 0;
    var o :| o in Backers(aos, k, s) - faulty;
    i :| 0 <= i < |aos| && Backs(aos[i].obs.commitReports, k, s) && aos[i].oracle == o;
  }

  /** At most f of the oracles behind each supported root are faulty. */
  ghost predicate FewFaultyBackers(aos: seq<AttributedObservation>, fChain: map<ChainSelector, nat>,
                                   faulty: set<OracleId>) {
    forall k :: Supported(aos, fChain, k) ==> |Backers(aos, k, None) * faulty| <= fChain[k.source]
  }

  /** Then an honest oracle reports every root in the result, and every number it lists as executed. */
  lemma HonestWitness(aos: seq<AttributedObservation>, fChain: map<ChainSelector, nat>, r: CommitObservations,
                      faulty: set<OracleId>, c: ChainSelector, n: nat, s: Option<SeqNum>) returns (i: int, j: int)
    requires Accepted(aos) && IsCommitConsensus(aos, fChain, r) && c in r && n < |r[c]|
    requires FewFaultyBackers(aos, fChain, faulty)
    requires s.Some? ==> s.value in r[c][n].executed
    ensures HonestReport(aos, faulty, c, i, j) && KeyOf(c, aos[i].obs.commitReports[c][j]) == KeyOf(c, r[c][n])
    ensures s.Some? ==> s.value in aos[i].obs.commitReports[c][j].executed
  {
    var k := KeyOf(c, r[c][n]);
    ReportsAreVoted(aos, fChain, r, c, n);
    assert IsEntry(aos, fChain, c, r[c][n]);
    i := HonestBacker(aos, faulty, fChain[c], k, s);
    var reports := aos[i].obs.commitReports[c];
    j :| 0 <= j < |reports| && KeyOf(c, reports[j]) == k && (s.Some? ==> s.value in reports[j].executed);
  }

  /** Honest oracles see one and the same chain: ranges are not empty, do not reach the last number,
      and those of different roots of one source chain do not overlap. */
  ghost predicate HonestConsistent(aos: seq<AttributedObservation>, faulty: set<OracleId>) {
    && (forall c, i, j :: HonestReport(aos, faulty, c, i, j) ==>
          aos[i].obs.commitReports[c][j].range.start <= aos[i].obs.commitReports[c][j].range.end < MAX_SEQ_NUM)
    && forall c, i, j, i', j' :: HonestReport(aos, faulty, c, i, j) && HonestReport(aos, faulty, c, i', j') ==>
         || KeyOf(c, aos[i].obs.commitReports[c][j]) == KeyOf(c, aos[i'].obs.commitReports[c][j'])
         || !aos[i].obs.commitReports[c][j].range.Overlaps(aos[i'].obs.commitReports[c][j'].range)
  }

  lemma ConsensusApart(aos: seq<AttributedObservation>, fChain: map<ChainSelector, nat>, r: CommitObservations,
                       faulty: set<OracleId>, c: ChainSelector, m: nat, n: nat)
    requires Accepted(aos) && IsCommitConsensus(aos, fChain, r) && HonestConsistent(aos, faulty)
    requires c in r && m < |r[c]| && n < |r[c]| && m != n
    requires FewFaultyBackers(aos, fChain, faulty)
    ensures r[c][m].merkleRoot != r[c][n].merkleRoot && !r[c][m].range.Overlaps(r[c][n].range)
  {
    if r[c][m].merkleRoot == r[c][n].merkleRoot {
      RootsPairwiseDistinct(aos, fChain, r, c, m, c, n);
    }
    var i, j := HonestWitness(aos, fChain, r, faulty, c, m, None);
    var i', j' := HonestWitness(aos, fChain, r, faulty, c, n, None);
    assert KeyOf(c, r[c][m]) != KeyOf(c, r[c][n]);
  }

  lemma ConsensusRange(aos: seq<AttributedObservation>, fChain: map<ChainSelector, nat>, r: CommitObservations,
                       faulty: set<OracleId>, c: ChainSelector, n: nat)
    requires Accepted(aos) && IsCommitConsensus(aos, fChain, r) && HonestConsistent(aos, faulty)
    requires c in r && n < |r[c]| && FewFaultyBackers(aos, fChain, faulty)
    ensures r[c][n].range.start <= r[c][n].range.end < MAX_SEQ_NUM && ExecutedInRange(r[c][n])
  {
    var i, j := HonestWitness(aos, fChain, r, faulty, c, n, None);
    ReportsAreVoted(aos, fChain, r, c, n);
  }

  /** reports lists reports of r, none twice, in any order. */
  ghost predicate ListsFrom(r: CommitObservations, reports: seq<CommitData>) {
    && (forall i :: 0 <= i < |reports| ==> reports[i].source in r && reports[i] in r[reports[i].source])
    && NoDuplicates(reports)
  }

  lemma GoodPair(aos: seq<AttributedObservation>, fChain: map<ChainSelector, nat>, r: CommitObservations,
                 faulty: set<OracleId>, a: CommitData, b: CommitData)
    requires Accepted(aos) && IsCommitConsensus(aos, fChain, r) && HonestConsistent(aos, faulty)
    requires FewFaultyBackers(aos, fChain, faulty)
    requires a.source in r && a in r[a.source] && b in r[a.source] && a != b
    ensures a.merkleRoot != b.merkleRoot && !a.range.Overlaps(b.range)
  {
    var c := a.source;
    var m :| 0 <= m < |r[c]| && r[c][m] == a;
    var n :| 0 <= n < |r[c]| && r[c][n] == b;
    assert IsEntry(aos, fChain, c, r[c][m]);
    ConsensusApart(aos, fChain, r, faulty, c, m, n);
  }

  lemma GoodOne(aos: seq<AttributedObservation>, fChain: map<ChainSelector, nat>, r: CommitObservations,
                faulty: set<OracleId>, a: CommitData)
    requires Accepted(aos) && IsCommitConsensus(aos, fChain, r) && HonestConsistent(aos, faulty)
    requires FewFaultyBackers(aos, fChain, faulty)
    requires a.source in r && a in r[a.source]
    ensures a.range.start <= a.range.end < MAX_SEQ_NUM && ExecutedInRange(a)
  {
    var m :| 0 <= m < |r[a.source]| && r[a.source][m] == a;
    assert IsEntry(aos, fChain, a.source, r[a.source][m]);
    ConsensusRange(aos, fChain, r, faulty, a.source, m);
  }

  /** With few faulty backers the agreed reports meet everything that building the next observation asks
      of them: non-empty ranges, different roots and disjoint ranges per chain, and executed numbers in
      range. */
  lemma BackedReportsAreGood(aos: seq<AttributedObservation>, fChain: map<ChainSelector, nat>, r: CommitObservations,
                             faulty: set<OracleId>, reports: seq<CommitData>)
    requires Accepted(aos) && IsCommitConsensus(aos, fChain, r) && HonestConsistent(aos, faulty)
    requires FewFaultyBackers(aos, fChain, faulty)
    requires ListsFrom(r, reports)
    ensures ExecObservation.GoodReports(reports)
  {
    forall i | 0 <= i < |reports|
      ensures reports[i].range.start <= reports[i].range.end < MAX_SEQ_NUM && ExecutedInRange(reports[i])
    {
      GoodOne(aos, fChain, r, faulty, reports[i]);
    }
    forall i, j | 0 <= i < j < |reports| && reports[i].source == reports[j].source
      ensures reports[i].merkleRoot != reports[j].merkleRoot && !reports[i].range.Overlaps(reports[j].range)
    {
      GoodPair(aos, fChain, r, faulty, reports[i], reports[j]);
    }
  }
}
