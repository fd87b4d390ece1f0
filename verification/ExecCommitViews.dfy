/** A round that the fault model allows and in which agreeing on roots fails: the readers of the
    destination outnumber the f of the source chain. */
module ExecCommitViews {
  import opened CcipTypes
  import opened Sorting
  import opened ExecTypes
  import opened ExecValidation
  import opened ExecRounds
  import opened ExecCommitConsensus
  import opened ExecCommitSafety
  import opened ExecCommitOrder
  import Quorum = ExecCommitQuorum

  /** Oracles 0 to 3 of the two views read the destination and nothing else, and 2 and 3 are faulty. */
  ghost predicate IsViewRound(don: Don, round: Round) {
    && don == Don(2, DEST) && round.aos == TwoViews() && round.faulty == {2, 3} && round.homeF == VIEW_F
    && round.supports.Keys == {0, 1, 2, 3, 4}
    && forall o :: o in round.supports ==> round.supports[o] == if o < 4 then {DEST} else {}
  }

  function ViewRound(): (round: Round)
    ensures IsViewRound(Don(2, DEST), round)
  {
    Round(TwoViews(), {2, 3}, map[0 := {DEST}, 1 := {DEST}, 2 := {DEST}, 3 := {DEST}, 4 := {}], VIEW_F)
  }

  lemma ViewReaders(don: Don, round: Round, c: ChainSelector)
    requires IsViewRound(don, round)
    ensures |FaultyReaders(round, c)| <= if c == DEST then 2 else 0
  {
    if c == DEST {
      SubsetSize(FaultyReaders(round, c), {2, 3});
    } else {
      assert FaultyReaders(round, c) == {};
    }
  }

  /** What oracle i of the two views has observed. */
  lemma View(i: nat)
    requires i < 5
    ensures TwoViews()[i] == if i < 2 then Sees(i, 10, 7) else if i < 4 then Sees(i, 11, 9)
                             else AttributedObservation(4, OnlyF(VIEW_F))
  {
  }

  lemma ViewIsValid(don: Don, round: Round, i: nat)
    requires IsViewRound(don, round) && i < |round.aos|
    ensures round.aos[i].oracle == i && i in round.supports && NamesHomeF(round.homeF, round.aos[i].obs)
    ensures ValidCommitsObservation(round.supports[i], don.dest, round.aos[i].obs)
    ensures i < 4 || round.aos[i].obs.commitReports == map[]
  {
    View(i);
    if i < 4 {
      var report := if i < 2 then ReportTo(10, 7) else ReportTo(11, 9);
      assert round.aos[i].obs.commitReports[SOURCE] == [report];
    }
  }

  lemma ViewsTolerable(don: Don, round: Round)
    requires IsViewRound(don, round)
    ensures Tolerable(don, round)
  {
    SubsetSize(Observers(round.aos) * round.faulty, {2, 3});
    forall c | c in round.homeF
      ensures |FaultyReaders(round, c)| <= round.homeF[c]
    {
      ViewReaders(don, round, c);
    }
    forall i | 0 <= i < |round.aos|
      ensures round.aos[i].oracle == i && i in round.supports && NamesHomeF(round.homeF, round.aos[i].obs)
    {
      ViewIsValid(don, round, i);
    }
  }

  lemma ViewsAreRound(don: Don, round: Round)
    requires IsViewRound(don, round)
    ensures CommitsRound(don, round)
  {
    ViewsTolerable(don, round);
    forall i | 0 <= i < |round.aos|
      ensures round.aos[i].oracle == i
      ensures ValidCommitsObservation(round.supports[i], don.dest, round.aos[i].obs)
      ensures don.dest in round.supports[i] || round.aos[i].obs.commitReports == map[]
    {
      ViewIsValid(don, round, i);
    }
  }

  lemma ViewsAgreeOnF(don: Don, round: Round)
    requires IsViewRound(don, round)
    ensures Quorum.Agrees(don, round, VIEW_F)
  {
    var bs := FChainBallots(round.aos);
    forall i | 0 <= i < |bs|
      ensures bs[i].entries == Votes.MapEntries(VIEW_F)
    {
      View(i);
    }
    Agreement.UnanimousMap(bs, Consensus.TwoFPlus1(2), VIEW_F);
  }

  lemma HonestView(aos: seq<AttributedObservation>, c: ChainSelector, i: int, j: int)
    requires aos == TwoViews() && HonestReport(aos, {2, 3}, c, i, j)
    ensures aos[i].obs.commitReports[c][j] == ReportTo(10, 7)
  {
    View(i);
    assert c == SOURCE && aos[i].obs.commitReports[c] == [ReportTo(10, 7)];
  }

  lemma HonestViews(don: Don, round: Round)
    requires IsViewRound(don, round)
    ensures HonestConsistent(round.aos, round.faulty)
    ensures !HonestlyReported(round, Commits.KeyOf(SOURCE, ReportTo(11, 9)))
  {
    forall c, i, j | HonestReport(round.aos, round.faulty, c, i, j)
      ensures round.aos[i].obs.commitReports[c][j] == ReportTo(10, 7)
    {
      HonestView(round.aos, c, i, j);
    }
  }

  lemma ViewReports(r: CommitObservations, reports: seq<CommitData>)
    requires reports == [ReportTo(10, 7), ReportTo(11, 9)] && r == map[SOURCE := reports]
    ensures ListsFrom(r, reports) && !ExecObservation.GoodReports(reports)
  {
    assert reports[0].range.Overlaps(reports[1].range);
  }

  /** With honest oracles that see one chain, two faulty readers of the destination, whose f is 2, get a
      root agreed that no honest oracle reports, since the f of the source is 1; the result then depends
      on the order of a map and overlaps itself. */
  lemma FaultyDestReaders(don: Don, round: Round, r: CommitObservations, r': CommitObservations,
                          reports: seq<CommitData>)
    requires IsViewRound(don, round) && reports == [ReportTo(10, 7), ReportTo(11, 9)]
    requires r == map[SOURCE := reports] && r' == map[SOURCE := [ReportTo(11, 9), ReportTo(10, 7)]]
    ensures CommitsRound(don, round) && Quorum.Agrees(don, round, VIEW_F)
    ensures HonestConsistent(round.aos, round.faulty)
    ensures IsCommitConsensus(round.aos, VIEW_F, r) && IsCommitConsensus(round.aos, VIEW_F, r') && r != r'
    ensures !HonestlyReported(round, Commits.KeyOf(SOURCE, ReportTo(11, 9)))
    ensures ListsFrom(r, reports) && !ExecObservation.GoodReports(reports)
  {
    ViewsAreRound(don, round);
    ViewsAgreeOnF(don, round);
    HonestViews(don, round);
    TwoResults(VIEW_F, r, r');
    ViewReports(r, reports);
  }
}
