/** Which agreed roots have an honest oracle behind them. The threshold is the f of the source chain,
    but the checks of the first phase ask for readers of the destination, and those of the second for
    readers of the source only where there are messages. */
module ExecCommitQuorum {
  import opened CcipTypes
  import opened Sorting
  import opened ExecTypes
  import opened ExecValidation
  import opened ExecRounds
  import opened ExecFaultyRounds
  import opened ExecCommitConsensus
  import opened ExecCommitSafety
  import opened ExecCommitOrder

  type RootData = Commits.RootData

  /** fChain is agreed, for the destination too. */
  ghost predicate Agrees(don: Don, round: Round, fChain: map<ChainSelector, nat>) {
    IsFChain(don, round.aos, fChain) && don.dest in fChain
  }

  lemma CommitsAccepted(don: Don, round: Round)
    requires CommitsRound(don, round)
    ensures Commits.Accepted(round.aos)
  {
  }

  lemma MessagesAccepted(don: Don, round: Round)
    requires MessagesRound(don, round)
    ensures Commits.Accepted(round.aos)
  {
  }

  // ---------- who stands behind a root ----------

  lemma BackersObserve(round: Round, k: RootData)
    ensures Commits.Backers(round.aos, k, None) <= Observers(round.aos)
  {
  }

  lemma BackerReadsDest(don: Don, round: Round, k: RootData, i: nat)
    requires CommitsRound(don, round) && k.merkleRoot != EMPTY_BYTES32
    requires i < |round.aos| && Commits.Backs(round.aos[i].obs.commitReports, k, None)
    ensures don.dest in round.supports[round.aos[i].oracle]
  {
    assert ValidCommitsObservation(round.supports[round.aos[i].oracle], don.dest, round.aos[i].obs);
    var reports := round.aos[i].obs.commitReports[k.source];
    var j :| 0 <= j < |reports| && Commits.KeyOf(k.source, reports[j]) == k;
    assert reports[j].merkleRoot == k.merkleRoot;
  }

  lemma FaultyBackersReadDest(don: Don, round: Round, k: RootData)
    requires CommitsRound(don, round) && k.merkleRoot != EMPTY_BYTES32
    ensures Commits.Backers(round.aos, k, None) * round.faulty <= FaultyReaders(round, don.dest)
  {
    forall i | 0 <= i < |round.aos| && Commits.Backs(round.aos[i].obs.commitReports, k, None)
      ensures round.aos[i].oracle in round.supports && don.dest in round.supports[round.aos[i].oracle]
    {
      BackerReadsDest(don, round, k, i);
    }
  }

  lemma RangeIsObserved(supported: set<ChainSelector>, obs: Observation, k: RootData)
    requires ValidMessagesObservation(supported, obs) && k.range.start <= k.range.end
    requires Commits.Backs(obs.commitReports, k, None)
    ensures k.source in supported
  {
    var reports := obs.commitReports[k.source];
    var j :| 0 <= j < |reports| && Commits.KeyOf(k.source, reports[j]) == k;
    assert reports[j].range.Contains(k.range.start);
    CoveredBy(reports, k.range.start);
    assert ChainObserved(obs.commitReports, obs.messages, k.source);
    assert k.range.start in obs.messages[k.source];
  }

  /** Whoever reports a root with a non-empty range has messages of its chain, and so reads it. */
  lemma BackerReadsSource(don: Don, round: Round, k: RootData, i: nat)
    requires MessagesRound(don, round) && k.range.start <= k.range.end
    requires i < |round.aos| && Commits.Backs(round.aos[i].obs.commitReports, k, None)
    ensures k.source in round.supports[round.aos[i].oracle]
  {
    RangeIsObserved(round.supports[round.aos[i].oracle], round.aos[i].obs, k);
  }

  lemma FaultyBackersReadSource(don: Don, round: Round, k: RootData)
    requires MessagesRound(don, round) && k.range.start <= k.range.end
    ensures Commits.Backers(round.aos, k, None) * round.faulty <= FaultyReaders(round, k.source)
  {
    forall i | 0 <= i < |round.aos| && Commits.Backs(round.aos[i].obs.commitReports, k, None)
      ensures round.aos[i].oracle in round.supports && k.source in round.supports[round.aos[i].oracle]
    {
      BackerReadsSource(don, round, k, i);
    }
  }

  /** What the fault model says of the reporters of k in the first phase: F, or for a root that is not
      empty the destination's f, is at most the f of its chain. */
  ghost predicate TrustedCommit(don: Don, homeF: map<ChainSelector, nat>, k: RootData) {
    && k.source in homeF
    && (|| don.f <= homeF[k.source]
        || (k.merkleRoot != EMPTY_BYTES32 && don.dest in homeF && homeF[don.dest] <= homeF[k.source]))
  }

  /** And in the second phase: F is at most the f of its chain, or its range is not empty. */
  ghost predicate TrustedMessages(don: Don, homeF: map<ChainSelector, nat>, k: RootData) {
    k.source in homeF && (don.f <= homeF[k.source] || k.range.start <= k.range.end)
  }

  /** The root is trusted in the phase that the round belongs to. */
  ghost predicate Trusted(don: Don, round: Round, k: RootData) {
    || (CommitsRound(don, round) && TrustedCommit(don, round.homeF, k))
    || (MessagesRound(don, round) && TrustedMessages(don, round.homeF, k))
  }

  lemma TrustedBackers(don: Don, round: Round, k: RootData)
    requires Trusted(don, round, k)
    ensures |Commits.Backers(round.aos, k, None) * round.faulty| <= round.homeF[k.source]
  {
    var liars := Commits.Backers(round.aos, k, None) * round.faulty;
    if don.f <= round.homeF[k.source] {
      BackersObserve(round, k);
      SubsetSize(liars, Observers(round.aos) * round.faulty);
    } else if CommitsRound(don, round) && TrustedCommit(don, round.homeF, k) {
      FaultyBackersReadDest(don, round, k);
      SubsetSize(liars, FaultyReaders(round, don.dest));
    } else {
      FaultyBackersReadSource(don, round, k);
      SubsetSize(liars, FaultyReaders(round, k.source));
    }
  }

  lemma TrustedAccepted(don: Don, round: Round, k: RootData)
    requires Trusted(don, round, k)
    ensures Commits.Accepted(round.aos) && Tolerable(don, round)
  {
    if CommitsRound(don, round) {
      CommitsAccepted(don, round);
    } else {
      MessagesAccepted(don, round);
    }
  }

  lemma TrustedFew(don: Don, round: Round, fChain: map<ChainSelector, nat>, k: RootData)
    requires Trusted(don, round, k) && Agrees(don, round, fChain) && k.source in fChain
    ensures |Commits.Backers(round.aos, k, None) * round.faulty| <= fChain[k.source]
  {
    TrustedAccepted(don, round, k);
    TrustedBackers(don, round, k);
    AgreedFIsHomeF(don, round, fChain, k.source);
  }

  /** An agreed root that is trusted has an honest reporter. */
  lemma TrustedIsHonest(don: Don, round: Round, fChain: map<ChainSelector, nat>, k: RootData)
    requires Trusted(don, round, k) && Agrees(don, round, fChain) && Supported(round.aos, fChain, k)
    ensures HonestlyReported(round, k)
  {
    TrustedAccepted(don, round, k);
    TrustedFew(don, round, fChain, k);
    Commits.VotesAreOracles(round.aos, k, None);
    var i := HonestBacker(round.aos, round.faulty, fChain[k.source], k, None);
  }

  // ---------- the phase that agrees on commit reports ----------

  /** The home chain configures fc for chain c and fd for the destination. */
  ghost predicate Configured(round: Round, dest: ChainSelector, c: ChainSelector, fc: nat, fd: nat) {
    c in round.homeF && round.homeF[c] == fc && dest in round.homeF && round.homeF[dest] == fd
  }

  /** k is an agreed root of c. */
  ghost predicate AgreedRoot(don: Don, round: Round, fChain: map<ChainSelector, nat>, c: ChainSelector, k: RootData) {
    Agrees(don, round, fChain) && Kept(round.aos, fChain, k) && k.source == c
  }

  /** In every round of the first phase, every agreed root of c has an honest reporter: of the empty
      ones, or of the others. */
  ghost predicate RootsHonest(don: Don, c: ChainSelector, fc: nat, fd: nat, empty: bool) {
    forall round: Round, fChain: map<ChainSelector, nat>, k: RootData ::
      (&& CommitsRound(don, round) && Configured(round, don.dest, c, fc, fd) && AgreedRoot(don, round, fChain, c, k)
       && (k.merkleRoot == EMPTY_BYTES32 <==> empty)) ==>
        HonestlyReported(round, k)
  }

  function ReportOf(c: ChainSelector, root: Bytes32, range: SeqNumRange): CommitData {
    CommitData(c, 1, 0, 0, root, range, [], [], [], [])
  }

  function CommitVote(homeF: map<ChainSelector, nat>, c: ChainSelector, report: CommitData): Observation {
    OnlyF(homeF).(commitReports := map[c := [report]])
  }

  lemma CommitVoteIsValid(don: Don, homeF: map<ChainSelector, nat>, c: ChainSelector, report: CommitData,
                          readable: set<ChainSelector>)
    requires report.source == c && report.executed == [] && PositiveF(homeF)
    requires report.merkleRoot != EMPTY_BYTES32 ==> don.dest in readable
    ensures ValidCommitsObservation(readable, don.dest, CommitVote(homeF, c, report))
    ensures ValidCommitsObservation({}, don.dest, OnlyF(homeF))
  {
    assert CommitVote(homeF, c, report).commitReports[c] == [report];
  }

  lemma SchemeIsCommitsRound(don: Don, x: Scheme, round: Round)
    requires CarriedOut(x, don.f, round) && Tolerable(don, round)
    requires ValidCommitsObservation(x.readable, don.dest, x.vote)
    requires ValidCommitsObservation({}, don.dest, OnlyF(x.homeF))
    ensures CommitsRound(don, round)
  {
    forall i | 0 <= i < |round.aos|
      ensures ValidCommitsObservation(round.supports[round.aos[i].oracle], don.dest, round.aos[i].obs)
      ensures round.aos[i].oracle !in round.faulty ==> round.aos[i].obs.commitReports == map[]
    {
      assert IsMember(x, round, i);
    }
  }

  /** f(c) + 1 faulty oracles get a root of c agreed that no honest one reports. */
  lemma FaultyAgree(don: Don, c: ChainSelector, homeF: map<ChainSelector, nat>, report: CommitData,
                    readable: set<ChainSelector>) returns (round: Round)
    requires c in homeF && don.dest in homeF && PositiveF(homeF) && homeF[c] + 1 <= don.f
    requires forall d :: d in homeF && d in readable ==> homeF[c] + 1 <= homeF[d]
    requires report.source == c && report.executed == []
    requires report.merkleRoot != EMPTY_BYTES32 ==> don.dest in readable
    ensures CommitsRound(don, round) && round.homeF == homeF
    ensures AgreedRoot(don, round, homeF, c, Commits.KeyOf(c, report))
    ensures !HonestlyReported(round, Commits.KeyOf(c, report))
  {
    var x := Scheme(CommitVote(homeF, c, report), homeF[c] + 1, readable, homeF);
    round := Carry(x, don.f);
    SchemeTolerable(don, x, round);
    CommitVoteIsValid(don, homeF, c, report, readable);
    SchemeIsCommitsRound(don, x, round);
    CommitsAccepted(don, round);
    SchemeF(don, x, round, FChainBallots(round.aos));
    SchemeWorks(x, don.f, round, c, report);
  }

  /** Every agreed root of a source chain c that is not empty has an honest reporter exactly if F or the
      destination's f is at most the f of c; the checks refuse an f that is not positive. */
  lemma NonEmptyRootsExactly(don: Don, c: ChainSelector, fc: nat, fd: nat)
    requires c != don.dest && fc > 0 && fd > 0
    ensures RootsHonest(don, c, fc, fd, false) <==> don.f <= fc || fd <= fc
  {
    if don.f <= fc || fd <= fc {
      forall round: Round, fChain: map<ChainSelector, nat>, k: RootData
        | CommitsRound(don, round) && Configured(round, don.dest, c, fc, fd) && AgreedRoot(don, round, fChain, c, k)
          && k.merkleRoot != EMPTY_BYTES32
        ensures HonestlyReported(round, k)
      {
        TrustedIsHonest(don, round, fChain, k);
      }
    } else {
      var homeF: map<ChainSelector, nat> := map[c := fc, don.dest := fd];
      var round := FaultyAgree(don, c, homeF, ReportOf(c, 9, SeqNumRange(5, 7)), {don.dest});
    }
  }

  /** Every agreed root of c that is empty has one exactly if F is at most the f of c: nothing checks who
      reports empty roots. */
  lemma EmptyRootsExactly(don: Don, c: ChainSelector, fc: nat, fd: nat)
    requires c != don.dest && fc > 0 && fd > 0
    ensures RootsHonest(don, c, fc, fd, true) <==> don.f <= fc
  {
    if don.f <= fc {
      forall round: Round, fChain: map<ChainSelector, nat>, k: RootData
        | CommitsRound(don, round) && Configured(round, don.dest, c, fc, fd) && AgreedRoot(don, round, fChain, c, k)
          && k.merkleRoot == EMPTY_BYTES32
        ensures HonestlyReported(round, k)
      {
        TrustedIsHonest(don, round, fChain, k);
      }
    } else {
      var homeF: map<ChainSelector, nat> := map[c := fc, don.dest := fd];
      var round := FaultyAgree(don, c, homeF, ReportOf(c, EMPTY_BYTES32, SeqNumRange(5, 7)), {});
    }
  }

  // ---------- the messages phase ----------

  /** The same for the second phase, of roots with an empty range or of the others. */
  ghost predicate RangesHonest(don: Don, c: ChainSelector, fc: nat, empty: bool) {
    forall round: Round, fChain: map<ChainSelector, nat>, k: RootData ::
      (&& MessagesRound(don, round) && c in round.homeF && round.homeF[c] == fc && AgreedRoot(don, round, fChain, c, k)
       && (k.range.start > k.range.end <==> empty)) ==>
        HonestlyReported(round, k)
  }

  /** A report without messages, and the empty maps that the checks ask for. */
  function MessagesVote(homeF: map<ChainSelector, nat>, c: ChainSelector, report: CommitData): Observation {
    Observation(map[c := [report]], map[c := map[]], map[c := map[]], map[c := map[]], homeF)
  }

  lemma NothingCovered(report: CommitData)
    requires report.range.start > report.range.end
    ensures Covered([report]) == {} && SizeSum([report]) == 0
  {
    assert [report][..0] == [];
    assert Covered([report][..0]) == {} && SizeSum([report][..0]) == 0;
    assert report.range.Nums() == {};
  }

  lemma MessagesVoteConforms(c: ChainSelector, report: CommitData, observed: CommitObservations,
                             msgs: MessageObservations)
    requires report.range.start > report.range.end && observed == map[c := [report]] && msgs == map[c := map[]]
    ensures CountsConform(observed, msgs)
  {
    NothingCovered(report);
    assert observed.Keys == {c} && msgs.Keys == {c};
    assert Sizes(observed) == Counts(msgs);
  }

  lemma OneReportIsValid(c: ChainSelector, report: CommitData, observed: CommitObservations)
    requires report == ReportOf(c, report.merkleRoot, report.range) && observed == map[c := [report]]
    ensures ReportsEligible({}, observed) && ValidSequenceNumbers(observed)
  {
    assert observed[c] == [report];
  }

  lemma MessagesVoteIsValid(homeF: map<ChainSelector, nat>, c: ChainSelector, report: CommitData, vote: Observation)
    requires report == ReportOf(c, report.merkleRoot, report.range) && PositiveF(homeF)
    requires report.range.start > report.range.end && vote == MessagesVote(homeF, c, report)
    ensures ValidMessagesObservation({}, vote)
  {
    MessagesVoteConforms(c, report, vote.commitReports, vote.messages);
    OneReportIsValid(c, report, vote.commitReports);
  }

  lemma OnlyFIsValid(homeF: map<ChainSelector, nat>, obs: Observation)
    requires PositiveF(homeF) && obs == OnlyF(homeF)
    ensures ValidMessagesObservation({}, obs)
  {
    assert Sizes(obs.commitReports) == Counts(obs.messages);
  }

  lemma SchemeIsMessagesRound(don: Don, x: Scheme, round: Round)
    requires CarriedOut(x, don.f, round) && Tolerable(don, round) && x.readable == {}
    requires ValidMessagesObservation({}, x.vote) && ValidMessagesObservation({}, OnlyF(x.homeF))
    ensures MessagesRound(don, round)
  {
    forall i | 0 <= i < |round.aos|
      ensures ValidMessagesObservation(round.supports[round.aos[i].oracle], round.aos[i].obs)
    {
      assert IsMember(x, round, i);
    }
  }

  lemma FaultyAgreeOnEmpty(don: Don, c: ChainSelector, homeF: map<ChainSelector, nat>, report: CommitData)
    returns (round: Round)
    requires c in homeF && don.dest in homeF && PositiveF(homeF) && homeF[c] + 1 <= don.f
    requires report == ReportOf(c, report.merkleRoot, report.range) && report.range.start > report.range.end
    ensures MessagesRound(don, round) && round.homeF == homeF
    ensures AgreedRoot(don, round, homeF, c, Commits.KeyOf(c, report))
    ensures !HonestlyReported(round, Commits.KeyOf(c, report))
  {
    var x := Scheme(MessagesVote(homeF, c, report), homeF[c] + 1, {}, homeF);
    round := Carry(x, don.f);
    SchemeTolerable(don, x, round);
    MessagesVoteIsValid(homeF, c, report, x.vote);
    OnlyFIsValid(homeF, OnlyF(homeF));
    SchemeIsMessagesRound(don, x, round);
    MessagesAccepted(don, round);
    SchemeF(don, x, round, FChainBallots(round.aos));
    SchemeWorks(x, don.f, round, c, report);
  }

  /** In the messages phase every agreed root with a non-empty range has an honest reporter. */
  lemma NonEmptyRangesHonest(don: Don, c: ChainSelector, fc: nat)
    ensures RangesHonest(don, c, fc, false)
  {
    forall round: Round, fChain: map<ChainSelector, nat>, k: RootData
      | MessagesRound(don, round) && c in round.homeF && round.homeF[c] == fc && AgreedRoot(don, round, fChain, c, k)
        && k.range.start <= k.range.end
      ensures HonestlyReported(round, k)
    {
      TrustedIsHonest(don, round, fChain, k);
    }
  }

  /** One with an empty range has one exactly if F is at most the f of its chain. */
  lemma EmptyRangesExactly(don: Don, c: ChainSelector, fc: nat)
    requires c != don.dest && fc > 0
    ensures RangesHonest(don, c, fc, true) <==> don.f <= fc
  {
    if don.f <= fc {
      forall round: Round, fChain: map<ChainSelector, nat>, k: RootData
        | MessagesRound(don, round) && c in round.homeF && round.homeF[c] == fc && AgreedRoot(don, round, fChain, c, k)
          && k.range.start > k.range.end
        ensures HonestlyReported(round, k)
      {
        TrustedIsHonest(don, round, fChain, k);
      }
    } else {
      var homeF: map<ChainSelector, nat> := map[c := fc, don.dest := 1];
      var round := FaultyAgreeOnEmpty(don, c, homeF, ReportOf(c, 9, SeqNumRange(7, 5)));
    }
  }

  // ---------- what follows ----------

  /** Every root that could be agreed on is trusted. */
  ghost predicate AllTrusted(don: Don, round: Round, fChain: map<ChainSelector, nat>) {
    && (CommitsRound(don, round) || MessagesRound(don, round)) && Agrees(don, round, fChain)
    && forall k :: Supported(round.aos, fChain, k) ==> Trusted(don, round, k)
  }

  lemma TrustedFewFaulty(don: Don, round: Round, fChain: map<ChainSelector, nat>)
    requires AllTrusted(don, round, fChain)
    ensures Commits.Accepted(round.aos) && FewFaultyBackers(round.aos, fChain, round.faulty)
  {
    if CommitsRound(don, round) {
      CommitsAccepted(don, round);
    } else {
      MessagesAccepted(don, round);
    }
    forall k | Supported(round.aos, fChain, k)
      ensures |Commits.Backers(round.aos, k, None) * round.faulty| <= fChain[k.source]
    {
      TrustedFew(don, round, fChain, k);
    }
  }

  /** If the honest oracles see one chain and all roots are trusted, the agreed reports meet everything
      that building the next observation asks of them: non-empty ranges, different roots and disjoint
      ranges per chain, and executed numbers in range. */
  lemma AgreedReportsAreGood(don: Don, round: Round, fChain: map<ChainSelector, nat>, r: CommitObservations,
                             reports: seq<CommitData>)
    requires AllTrusted(don, round, fChain) && HonestConsistent(round.aos, round.faulty)
    requires IsCommitConsensus(round.aos, fChain, r) && ListsFrom(r, reports)
    ensures ExecObservation.GoodReports(reports)
  {
    TrustedFewFaulty(don, round, fChain);
    BackedReportsAreGood(round.aos, fChain, r, round.faulty, reports);
  }

  /** And there is only one result. */
  lemma HonestConsensusDetermined(don: Don, round: Round, fChain: map<ChainSelector, nat>,
                                  a: CommitObservations, b: CommitObservations)
    requires AllTrusted(don, round, fChain) && HonestConsistent(round.aos, round.faulty)
    requires IsCommitConsensus(round.aos, fChain, a) && IsCommitConsensus(round.aos, fChain, b)
    ensures a == b
  {
    TrustedFewFaulty(don, round, fChain);
    BackedConsensusDetermined(round.aos, fChain, round.faulty, a, b);
  }

  /** An honest oracle reports every agreed root and every number agreed to be executed in it. */
  lemma AgreedIsWitnessed(don: Don, round: Round, fChain: map<ChainSelector, nat>, r: CommitObservations,
                          c: ChainSelector, n: nat, s: Option<SeqNum>) returns (i: int, j: int)
    requires AllTrusted(don, round, fChain)
    requires IsCommitConsensus(round.aos, fChain, r) && c in r && n < |r[c]|
    requires s.Some? ==> s.value in r[c][n].executed
    ensures HonestReport(round.aos, round.faulty, c, i, j)
    ensures Commits.KeyOf(c, round.aos[i].obs.commitReports[c][j]) == Commits.KeyOf(c, r[c][n])
    ensures s.Some? ==> s.value in round.aos[i].obs.commitReports[c][j].executed
  {
    TrustedFewFaulty(don, round, fChain);
    i, j := HonestWitness(round.aos, fChain, r, round.faulty, c, n, s);
  }
}
