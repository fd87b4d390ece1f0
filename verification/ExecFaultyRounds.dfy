/** Rounds in which some faulty oracles report one root and nobody else reports any. */
module ExecFaultyRounds {
  import opened CcipTypes
  import opened Sorting
  import opened Votes
  import opened Consensus
  import opened Agreement
  import opened ExecTypes
  import opened ExecRounds
  import opened ExecCommitConsensus
  import opened ExecCommitOrder

  /** What the faulty oracles agree on: the observation they make, how many they are, and which chains
      they may read, with the f of the chains. */
  datatype Scheme = Scheme(vote: Observation, voters: nat, readable: set<ChainSelector>,
                           homeF: map<ChainSelector, nat>)

  /** The first oracles carry the scheme out and the other 2F + 1 just name the f of the chains. */
  ghost predicate CarriedOut(x: Scheme, F: nat, round: Round) {
    && |round.aos| == x.voters + 2 * F + 1 && round.faulty == Span(0, x.voters) && round.homeF == x.homeF
    && (forall i :: 0 <= i < |round.aos| ==> IsMember(x, round, i))
    && forall o :: o in round.supports ==> round.supports[o] == if o in round.faulty then x.readable else {}
  }

  ghost predicate IsMember(x: Scheme, round: Round, i: nat)
    requires i < |round.aos|
  {
    && round.aos[i].oracle == i && i in round.supports
    && round.aos[i].obs == if i < x.voters then x.vote else OnlyF(x.homeF)
  }

  lemma Carry(x: Scheme, F: nat) returns (round: Round)
    ensures CarriedOut(x, F, round)
  {
    var n := x.voters + 2 * F + 1;
    var aos := seq(n, i requires 0 <= i < n =>
                     AttributedObservation(i, if i < x.voters then x.vote else OnlyF(x.homeF)));
    var supports := map o | o in Span(0, n) :: (if o in Span(0, x.voters) then x.readable else {});
    round := Round(aos, Span(0, x.voters), supports, x.homeF);
    forall i | 0 <= i < |round.aos|
      ensures IsMember(x, round, i)
    {
      assert i in Span(0, n);
    }
  }

  lemma FewReaders(x: Scheme, F: nat, round: Round, c: ChainSelector)
    requires CarriedOut(x, F, round) && c in x.homeF && (c in x.readable ==> x.voters <= x.homeF[c])
    ensures |FaultyReaders(round, c)| <= x.homeF[c]
  {
    if c in x.readable {
      SubsetSize(FaultyReaders(round, c), round.faulty);
    } else {
      assert FaultyReaders(round, c) == {};
    }
  }

  /** No more than F of them, and no more than f of any chain they may read: the fault model allows it. */
  ghost predicate Small(don: Don, x: Scheme) {
    && x.voters <= don.f && x.vote.fChain == x.homeF
    && forall c :: c in x.homeF && c in x.readable ==> x.voters <= x.homeF[c]
  }

  lemma SchemeTolerable(don: Don, x: Scheme, round: Round)
    requires CarriedOut(x, don.f, round) && Small(don, x)
    ensures Tolerable(don, round)
  {
    SubsetSize(Observers(round.aos) * round.faulty, round.faulty);
    forall c | c in round.homeF
      ensures |FaultyReaders(round, c)| <= round.homeF[c]
    {
      FewReaders(x, don.f, round, c);
    }
    forall i | 0 <= i < |round.aos|
      ensures round.aos[i].oracle == i && i in round.supports && NamesHomeF(round.homeF, round.aos[i].obs)
    {
      assert IsMember(x, round, i);
    }
  }

  lemma SchemeF(don: Don, x: Scheme, round: Round, bs: seq<Ballot<nat>>)
    requires CarriedOut(x, don.f, round) && Small(don, x) && bs == FChainBallots(round.aos)
    ensures IsFChain(don, round.aos, x.homeF)
  {
    forall i | 0 <= i < |bs|
      ensures bs[i].entries == MapEntries(x.homeF)
    {
      assert IsMember(x, round, i);
    }
    UnanimousMap(bs, TwoFPlus1(don.f), x.homeF);
  }

  // ---------- one report ----------

  /** The vote is for this report of chain c, and nothing else. */
  ghost predicate OneReport(vote: Observation, c: ChainSelector, report: CommitData) {
    vote.commitReports == map[c := [report]] && report.source == c && report.executed == []
  }

  lemma OneReportBacks(vote: Observation, c: ChainSelector, report: CommitData, k: Commits.RootData)
    requires OneReport(vote, c, report)
    ensures Commits.Backs(vote.commitReports, k, None) <==> k == Commits.KeyOf(c, report)
  {
    var reports := [report];
    assert reports[0] == report;
    assert k.source == c ==> (Commits.ListBacks(reports, k, None) <==> Commits.KeyOf(c, reports[0]) == k);
  }

  lemma MemberBacks(x: Scheme, round: Round, i: nat, c: ChainSelector, report: CommitData, k: Commits.RootData)
    requires i < |round.aos| && IsMember(x, round, i) && OneReport(x.vote, c, report)
    ensures Commits.Backs(round.aos[i].obs.commitReports, k, None) <==>
            i < x.voters && k == Commits.KeyOf(c, report)
  {
    OneReportBacks(x.vote, c, report, k);
  }

  lemma SchemeBackers(x: Scheme, F: nat, round: Round, c: ChainSelector, report: CommitData, k: Commits.RootData)
    requires CarriedOut(x, F, round) && OneReport(x.vote, c, report)
    ensures Commits.Backers(round.aos, k, None) == if k == Commits.KeyOf(c, report) then round.faulty else {}
  {
    forall i | 0 <= i < |round.aos|
      ensures round.aos[i].oracle == i
      ensures Commits.Backs(round.aos[i].obs.commitReports, k, None) <==>
              i < x.voters && k == Commits.KeyOf(c, report)
    {
      assert IsMember(x, round, i);
      MemberBacks(x, round, i, c, report, k);
    }
    if k == Commits.KeyOf(c, report) {
      forall o | o in round.faulty
        ensures o in Commits.Backers(round.aos, k, None)
      {
        assert round.aos[o].oracle == o;
      }
    }
  }

  /** With f + 1 voters the report's root is agreed on, and no honest oracle has reported it. */
  lemma SchemeWorks(x: Scheme, F: nat, round: Round, c: ChainSelector, report: CommitData)
    requires CarriedOut(x, F, round) && OneReport(x.vote, c, report) && Commits.Accepted(round.aos)
    requires c in x.homeF && x.voters >= x.homeF[c] + 1
    ensures Kept(round.aos, x.homeF, Commits.KeyOf(c, report))
    ensures !HonestlyReported(round, Commits.KeyOf(c, report))
  {
    forall k
      ensures Supported(round.aos, x.homeF, k) <==> k == Commits.KeyOf(c, report)
    {
      SchemeBackers(x, F, round, c, report, k);
      SupportIsBacking(round.aos, x.homeF, k, Commits.Backers(round.aos, k, None));
    }
    forall i | 0 <= i < |round.aos| && round.aos[i].oracle !in round.faulty
      ensures !Commits.Backs(round.aos[i].obs.commitReports, Commits.KeyOf(c, report), None)
    {
      assert IsMember(x, round, i);
    }
  }
}
