/** The consensus on committed roots by counting who lists which report with which numbers executed. */
module ExecCommitCount {
  import opened CcipTypes
  import opened ExecTypes
  import opened ExecCommitVotes
  import opened ExecCommitConsensus

  /** The reports agree on everything that is voted on. */
  ghost predicate SameData(d: CommitData, e: CommitData) {
    && d.onRamp == e.onRamp && d.timestamp == e.timestamp && d.blockNum == e.blockNum
    && d.merkleRoot == e.merkleRoot && d.range == e.range
  }

  /** The observation lists, under chain c, a report with the data of d, and s among its executed numbers
      if s is given. */
  ghost predicate Lists(observed: CommitObservations, c: ChainSelector, d: CommitData, s: Option<SeqNum>) {
    c in observed && exists j :: 0 <= j < |observed[c]| && SameData(observed[c][j], d)
                                 && (s.Some? ==> s.value in observed[c][j].executed)
  }

  ghost function Listers(aos: seq<AttributedObservation>, c: ChainSelector, d: CommitData, s: Option<SeqNum>)
    : set<OracleId> {
    set i | 0 <= i < |aos| && Lists(aos[i].obs.commitReports, c, d, s) :: aos[i].oracle
  }

  lemma SameKey(c: ChainSelector, d: CommitData, e: CommitData)
    ensures SameData(d, e) <==> KeyOf(c, d) == KeyOf(c, e)
  {
  }

  lemma ListingIsBacking(observed: CommitObservations, c: ChainSelector, d: CommitData, s: Option<SeqNum>)
    ensures Lists(observed, c, d, s) <==> Backs(observed, KeyOf(c, d), s)
  {
    var k := KeyOf(c, d);
    if Lists(observed, c, d, s) {
      var j :| 0 <= j < |observed[c]| && SameData(observed[c][j], d)
               && (s.Some? ==> s.value in observed[c][j].executed);
      assert KeyOf(c, observed[c][j]) == k;
    }
    if Backs(observed, k, s) {
      var j :| 0 <= j < |observed[c]| && KeyOf(c, observed[c][j]) == k
               && (s.Some? ==> s.value in observed[c][j].executed);
      assert SameData(observed[c][j], d);
    }
  }

  lemma ListersBack(aos: seq<AttributedObservation>, c: ChainSelector, d: CommitData, s: Option<SeqNum>)
    requires Accepted(aos)
    ensures |Listers(aos, c, d, s)| == VotesFor(aos, KeyOf(c, d), s)
  {
    forall i | 0 <= i < |aos|
      ensures Lists(aos[i].obs.commitReports, c, d, s) <==> Backs(aos[i].obs.commitReports, KeyOf(c, d), s)
    {
      ListingIsBacking(aos[i].obs.commitReports, c, d, s);
    }
    assert Listers(aos, c, d, s) == Backers(aos, KeyOf(c, d), s);
    VotesAreOracles(aos, KeyOf(c, d), s);
  }

  /** At least f + 1 oracles list it, for the f of its chain. */
  ghost predicate Popular(aos: seq<AttributedObservation>, fChain: map<ChainSelector, nat>, c: ChainSelector,
                          d: CommitData) {
    c in fChain && |Listers(aos, c, d, None)| >= fChain[c] + 1
  }

  /** And on no chain do as many list different data with the same merkle root. */
  ghost predicate Unrivalled(aos: seq<AttributedObservation>, fChain: map<ChainSelector, nat>, c: ChainSelector,
                             d: CommitData) {
    forall e: ChainSelector, x: CommitData :: Popular(aos, fChain, e, x) && x.merkleRoot == d.merkleRoot ==>
      e == c && SameData(x, d)
  }

  /** A report with the data of k. */
  function DataOf(k: RootData): CommitData {
    CommitData(k.source, k.onRamp, k.timestamp, k.blockNum, k.merkleRoot, k.range, [], [], [], [])
  }

  lemma PopularIsSupported(aos: seq<AttributedObservation>, fChain: map<ChainSelector, nat>, c: ChainSelector,
                           d: CommitData)
    requires Accepted(aos)
    ensures Popular(aos, fChain, c, d) <==> Supported(aos, fChain, KeyOf(c, d))
  {
    ListersBack(aos, c, d, None);
  }

  lemma KeptByCount(aos: seq<AttributedObservation>, fChain: map<ChainSelector, nat>, c: ChainSelector, d: CommitData)
    requires Accepted(aos)
    ensures Kept(aos, fChain, KeyOf(c, d)) <==> Popular(aos, fChain, c, d) && Unrivalled(aos, fChain, c, d)
  {
    PopularIsSupported(aos, fChain, c, d);
    if Kept(aos, fChain, KeyOf(c, d)) {
      forall e: ChainSelector, x: CommitData | Popular(aos, fChain, e, x) && x.merkleRoot == d.merkleRoot
        ensures e == c && SameData(x, d)
      {
        PopularIsSupported(aos, fChain, e, x);
        assert KeyOf(e, x) == KeyOf(c, d);
      }
    }
    if Popular(aos, fChain, c, d) && Unrivalled(aos, fChain, c, d) {
      forall j | Supported(aos, fChain, j) && j.merkleRoot == d.merkleRoot
        ensures j == KeyOf(c, d)
      {
        assert KeyOf(j.source, DataOf(j)) == j;
        PopularIsSupported(aos, fChain, j.source, DataOf(j));
      }
    }
  }

  /** Some report of the result for chain c has the data of d. */
  ghost predicate InResult(r: CommitObservations, c: ChainSelector, d: CommitData) {
    c in r && exists i :: 0 <= i < |r[c]| && SameData(r[c][i], d)
  }

  /** The result has the data of d under chain c exactly if f + 1 oracles list it and it has no rival. */
  lemma AgreedByCount(aos: seq<AttributedObservation>, fChain: map<ChainSelector, nat>, r: CommitObservations,
                      c: ChainSelector, d: CommitData)
    requires Accepted(aos) && IsCommitConsensus(aos, fChain, r)
    ensures InResult(r, c, d) <==> Popular(aos, fChain, c, d) && Unrivalled(aos, fChain, c, d)
  {
    KeptByCount(aos, fChain, c, d);
    if InResult(r, c, d) {
      var i :| 0 <= i < |r[c]| && SameData(r[c][i], d);
      assert IsEntry(aos, fChain, c, r[c][i]);
      SameKey(c, r[c][i], d);
    }
    if Kept(aos, fChain, KeyOf(c, d)) {
      assert Listed(c, r[c], KeyOf(c, d));
      var i :| 0 <= i < |r[c]| && KeyOf(c, r[c][i]) == KeyOf(c, d);
      SameKey(c, r[c][i], d);
    }
  }

  /** A report of the result is filed under its own chain, carries nothing but the data and executed
      numbers, and lists exactly the numbers that f + 1 oracles list as executed in it, in order. */
  lemma ExecutedByCount(aos: seq<AttributedObservation>, fChain: map<ChainSelector, nat>, r: CommitObservations,
                        c: ChainSelector, i: nat)
    requires Accepted(aos) && IsCommitConsensus(aos, fChain, r) && c in r && i < |r[c]|
    ensures c in fChain && r[c][i].source == c && r[c][i].messages == [] && r[c][i].hashes == []
    ensures r[c][i].tokenData == []
    ensures forall j, k :: 0 <= j < k < |r[c][i].executed| ==> r[c][i].executed[j] < r[c][i].executed[k]
    ensures forall s: SeqNum :: s in r[c][i].executed <==> |Listers(aos, c, r[c][i], Some(s))| >= fChain[c] + 1
  {
    assert IsEntry(aos, fChain, c, r[c][i]);
    forall s: SeqNum
      ensures s in r[c][i].executed <==> |Listers(aos, c, r[c][i], Some(s))| >= fChain[c] + 1
    {
      ListersBack(aos, c, r[c][i], Some(s));
    }
  }
}
