/** A run with one report per round in which a report counts as transmitted although none of its roots
    has been committed: another recorded chain has moved. */
module CommitSingleRun {
  import opened CcipTypes
  import opened Consensus
  import opened Agreement
  import opened MerkleRoot
  import opened MerkleRootObservation
  import opened MerkleRootSafety
  import opened MerkleRootRuns
  import opened MerkleRootUnanimous
  import opened CommitReports
  import opened CommitHistory

  const DEST: ChainSelector := 1

  /** The chain with new messages. */
  const BUSY: ChainSelector := 3

  /** The chain without any, which moves later. */
  const QUIET: ChainSelector := 4

  const CFG := Config(1, DEST, 256, 5, false)

  const F_CHAIN: map<ChainSelector, nat> := map[DEST := 1, BUSY := 1, QUIET := 1]

  const CHAINS: set<ChainSelector> := {DEST, BUSY, QUIET}

  const NEXTS := [SeqNumChain(BUSY, 5), SeqNumChain(QUIET, 5)]

  const ROOT := MerkleRootChain(BUSY, SeqNumRange(5, 7), 1, 9)

  // ---------- selecting ----------

  function Selecting(): Observation {
    Observation([], [SeqNumChain(BUSY, 7), SeqNumChain(QUIET, 4)], NEXTS, F_CHAIN)
  }

  function Selected(): Outcome {
    Outcome(ReportIntervalsSelected, [ChainRange(BUSY, SeqNumRange(5, 7))], [], NEXTS, 0)
  }

  /** Two entries are their map. */
  lemma PairEchoes(a: SeqNumChain, b: SeqNumChain, th: MultiThreshold<ChainSelector>,
                   entries: seq<(ChainSelector, SeqNum)>)
    requires a.chain != b.chain && th.Get(a.chain).Some? && th.Get(b.chain).Some? && entries == SeqNumEntries([a, b])
    ensures HasEntries(entries, th, map[a.chain := a.seqNum, b.chain := b.seqNum])
  {
    assert entries[0] == (a.chain, a.seqNum) && entries[1] == (b.chain, b.seqNum);
  }

  lemma SelectingValid(obs: Observation)
    requires obs == Selecting()
    ensures ValidObservation(obs, CHAINS, DEST)
  {
    assert ValidOnRampMax(obs.onRampMax, CHAINS) && ValidOffRampNext(obs.offRampNext, true);
  }

  lemma SelectingEchoes(obs: Observation, cons: ConsensusObservation)
    requires obs == Selecting()
    requires cons == ConsensusObservation(map[], map[BUSY := 7, QUIET := 4], map[BUSY := 5, QUIET := 5], F_CHAIN)
    ensures Echoes(CFG, obs, cons)
  {
    PairEchoes(SeqNumChain(BUSY, 7), SeqNumChain(QUIET, 4), PerKey(PositiveOnly(F_CHAIN)),
               SeqNumEntries(obs.onRampMax));
    PairEchoes(SeqNumChain(BUSY, 5), SeqNumChain(QUIET, 5), ConstantThreshold(1), SeqNumEntries(obs.offRampNext));
  }

  lemma OneRange(prev: Outcome, cons: ConsensusObservation, out: Outcome)
    requires cons == ConsensusObservation(map[], map[BUSY := 7, QUIET := 4], map[BUSY := 5, QUIET := 5], F_CHAIN)
    requires prev == OfKind(Unset) && out == Selected()
    ensures StepOn(CFG, prev, cons, out)
  {
    assert HasNew(cons, BUSY);
    LimitIsPrefix(SeqNumRange(5, 7), 256);
    assert NewRange(cons, 256, BUSY) == SeqNumRange(5, 7);
    assert forall r :: r in out.ranges <==> r == ChainRange(BUSY, SeqNumRange(5, 7));
    assert forall s :: s in out.offRampNext <==> s == SeqNumChain(BUSY, 5) || s == SeqNumChain(QUIET, 5);
  }

  lemma SelectingStep(prev: Outcome, obs: Observation, out: Outcome)
    requires prev == OfKind(Unset) && obs == Selecting() && out == Selected()
    ensures Step(CFG, prev, Chorus(obs, 3), out)
  {
    var cons := ConsensusObservation(map[], map[BUSY := 7, QUIET := 4], map[BUSY := 5, QUIET := 5], F_CHAIN);
    SelectingEchoes(obs, cons);
    SelectingValid(obs);
    OneRange(prev, cons, out);
    UnanimousStep(CFG, prev, obs, 3, CHAINS, cons, out);
  }

  // ---------- building ----------

  function Building(): Observation {
    Observation([ROOT], [], [], F_CHAIN)
  }

  function Generated(): Outcome {
    Outcome(ReportGenerated, [], [ROOT], NEXTS, 0)
  }

  lemma BuildingValid(obs: Observation)
    requires obs == Building()
    ensures ValidObservation(obs, CHAINS, DEST)
  {
    assert ValidRoots(obs.merkleRoots, CHAINS);
  }

  lemma BuildingEchoes(obs: Observation, cons: ConsensusObservation)
    requires obs == Building() && cons == ConsensusObservation(map[BUSY := ROOT], map[], map[], F_CHAIN)
    ensures Echoes(CFG, obs, cons)
  {
    var entries := RootEntries(obs);
    assert entries[0] == (BUSY, ROOT);
    assert HasEntries(entries, TwoFPlus1PerChain(F_CHAIN), map[BUSY := ROOT]);
  }

  lemma OneRoot(prev: Outcome, cons: ConsensusObservation, out: Outcome)
    requires cons == ConsensusObservation(map[BUSY := ROOT], map[], map[], F_CHAIN)
    requires prev == Selected() && out == Generated()
    ensures StepOn(CFG, prev, cons, out)
  {
    assert forall r :: r in out.roots <==> r == ROOT;
  }

  lemma BuildingStep(prev: Outcome, obs: Observation, out: Outcome)
    requires prev == Selected() && obs == Building() && out == Generated()
    ensures Step(CFG, prev, Chorus(obs, 3), out)
  {
    var cons := ConsensusObservation(map[BUSY := ROOT], map[], map[], F_CHAIN);
    BuildingEchoes(obs, cons);
    BuildingValid(obs);
    OneRoot(prev, cons, out);
    UnanimousStep(CFG, prev, obs, 3, CHAINS, cons, out);
  }

  // ---------- waiting ----------

  function Waiting(): Observation {
    Observation([], [], [SeqNumChain(BUSY, 5), SeqNumChain(QUIET, 9)], F_CHAIN)
  }

  lemma WaitingValid(obs: Observation)
    requires obs == Waiting()
    ensures ValidObservation(obs, CHAINS, DEST)
  {
    assert ValidOffRampNext(obs.offRampNext, true);
  }

  lemma WaitingEchoes(obs: Observation, cons: ConsensusObservation)
    requires obs == Waiting() && cons == ConsensusObservation(map[], map[], map[BUSY := 5, QUIET := 9], F_CHAIN)
    ensures Echoes(CFG, obs, cons)
  {
    PairEchoes(SeqNumChain(BUSY, 5), SeqNumChain(QUIET, 9), ConstantThreshold(1), SeqNumEntries(obs.offRampNext));
  }

  lemma QuietMoved(cons: ConsensusObservation, prev: Outcome)
    requires cons.offRampNext == map[BUSY := 5, QUIET := 9] && prev == Generated()
    ensures StepOn(CFG, prev, cons, OfKind(ReportTransmitted))
  {
    assert prev.offRampNext[1] == SeqNumChain(QUIET, 5);
    assert Overtaken(prev, cons, 1);
    assert Advanced(prev, cons, QUIET);
  }

  lemma WaitingStep(prev: Outcome, obs: Observation, out: Outcome)
    requires prev == Generated() && obs == Waiting() && out == OfKind(ReportTransmitted)
    ensures Step(CFG, prev, Chorus(obs, 3), out)
  {
    var cons := ConsensusObservation(map[], map[], map[BUSY := 5, QUIET := 9], F_CHAIN);
    WaitingEchoes(obs, cons);
    WaitingValid(obs);
    QuietMoved(cons, prev);
    UnanimousStep(CFG, prev, obs, 3, CHAINS, cons, out);
  }

  // ---------- the run ----------

  function Observed(k: nat): Observation {
    if k == 0 then Selecting() else if k == 1 then Building() else Waiting()
  }

  function Out(k: nat): Outcome {
    if k == 0 then OfKind(Unset) else if k == 1 then Selected() else if k == 2 then Generated()
    else OfKind(ReportTransmitted)
  }

  /** In each of the three rounds three honest oracles observe the same. */
  ghost predicate IsThree(rounds: seq<Round>, outs: seq<Outcome>) {
    && |rounds| == 3 && (forall k :: 0 <= k < 3 ==> rounds[k] == UnanimousRound(Observed(k), 3, CHAINS))
    && |outs| == 4 && forall k :: 0 <= k < 4 ==> outs[k] == Out(k)
  }

  lemma ObservedIsHonest(k: nat)
    requires k < 3
    ensures ValidObservation(Observed(k), CHAINS, DEST) && Honest(Out(k), F_CHAIN, Observed(k))
    ensures Observed(k).fChain == F_CHAIN
  {
    SelectingValid(Selecting());
    BuildingValid(Building());
    WaitingValid(Waiting());
  }

  lemma ObservedStep(k: nat, prev: Outcome, obs: Observation, out: Outcome)
    requires k < 3 && prev == Out(k) && obs == Observed(k) && out == Out(k + 1)
    ensures Step(CFG, prev, Chorus(obs, 3), out)
  {
    if k == 0 {
      SelectingStep(prev, obs, out);
    } else if k == 1 {
      BuildingStep(prev, obs, out);
    } else {
      WaitingStep(prev, obs, out);
    }
  }

  lemma ThreeIsRun(rounds: seq<Round>, outs: seq<Outcome>)
    requires IsThree(rounds, outs)
    ensures IsRun(CFG, rounds, outs)
  {
    forall k | 0 <= k < |rounds|
      ensures Tolerable(CFG, outs[k], rounds[k]) && Step(CFG, outs[k], rounds[k].aos, outs[k + 1])
    {
      ObservedIsHonest(k);
      UnanimousTolerable(CFG, outs[k], Observed(k), 3, CHAINS, rounds[k]);
      ObservedStep(k, outs[k], Observed(k), outs[k + 1]);
    }
  }

  // ---------- the off-ramp ----------

  const INITIAL: OffRamp := map[BUSY := 5, QUIET := 5]

  /** A root of the quiet chain, from somewhere else. */
  const OTHER := MerkleRootChain(QUIET, SeqNumRange(5, 8), 1, 9)

  /** A submission of that root alone, at a favourable time. */
  function OtherReport(): Submission {
    Submission(Some(Report([OTHER], [])), 1, Answers(true, Some(false), Some(true), Some(true), Some(0), true))
  }

  lemma OtherIsApplied(s: Submission)
    requires s == OtherReport()
    ensures s.Roots() == [OTHER] && Applied(s, INITIAL) && AfterOne(s, INITIAL) == map[BUSY := 5, QUIET := 9]
    ensures RangesOf(s.Roots(), BUSY) == []
  {
    assert s.Roots() == [OTHER];
    assert [OTHER][..0] == [];
    assert Apply([OTHER][..0], INITIAL) == INITIAL;
  }

  lemma OtherHistory(history: seq<Submission>)
    requires history == [OtherReport()]
    ensures history[..0] == [] && history[..1] == history
    ensures After(history[..0], INITIAL) == INITIAL && After(history[..1], INITIAL) == map[BUSY := 5, QUIET := 9]
    ensures Committed(history[..1], INITIAL, BUSY) == []
  {
    OtherIsApplied(OtherReport());
    assert history[..1] == history;
    assert history[..|history| - 1] == [];
  }

  lemma ReadIsTrue(round: Round, history: seq<Submission>, k: nat, c: ChainSelector, i: int, n: int, u: nat)
    requires k < 3 && round == UnanimousRound(Observed(k), 3, CHAINS) && history == [OtherReport()]
    requires HonestRead(round, c, i, n) && u == if k < 2 then 0 else 1
    ensures WasNext(history, INITIAL, u, c, round.aos[i].obs.offRampNext[n].seqNum)
  {
    OtherHistory(history);
    assert round.aos[i].obs == Observed(k);
    var s := Observed(k).offRampNext[n];
    assert k != 1 && s.chain == c && s.chain in After(history[..u], INITIAL);
    assert After(history[..u], INITIAL)[c] == s.seqNum;
  }

  lemma ReadsAreTrue(rounds: seq<Round>, outs: seq<Outcome>, history: seq<Submission>, at: seq<nat>)
    requires IsThree(rounds, outs) && history == [OtherReport()] && at == [0, 0, 1]
    ensures HonestReads(rounds, history, INITIAL, at)
  {
    forall k, c, i, n | 0 <= k < |rounds| && HonestRead(rounds[k], c, i, n)
      ensures WasNext(history, INITIAL, at[k], c, rounds[k].aos[i].obs.offRampNext[n].seqNum)
    {
      ReadIsTrue(rounds[k], history, k, c, i, n, at[k]);
    }
  }

  /** ReportTransmitted follows, and nothing of the pending root's chain has ever been committed. */
  lemma TransmittedUncommitted(rounds: seq<Round>, outs: seq<Outcome>, history: seq<Submission>, at: seq<nat>)
    requires IsThree(rounds, outs) && history == [OtherReport()] && at == [0, 0, 1]
    ensures CFG.Valid() && IsRun(CFG, rounds, outs) && HonestReads(rounds, history, INITIAL, at)
    ensures Pending(outs[2]) && outs[2].roots == [ROOT] && outs[3].kind == ReportTransmitted
    ensures Committed(history[..at[2]], INITIAL, ROOT.chain) == []
  {
    ThreeIsRun(rounds, outs);
    ReadsAreTrue(rounds, outs, history, at);
    OtherHistory(history);
    assert outs[2] == Generated() && outs[3] == OfKind(ReportTransmitted);
  }
}
