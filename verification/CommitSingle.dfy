/** What ReportTransmitted is worth when a round makes one report: any recorded chain will do, pending
    or not. */
module CommitSingle {
  import opened CcipTypes
  import opened MerkleRoot
  import opened MerkleRootObservation
  import opened MerkleRootSafety
  import opened MerkleRootRuns
  import opened MerkleRootUnanimous
  import opened CommitReports
  import opened CommitHistory

  // ---------- what it does mean ----------

  /** An honest reader has seen the number recorded at place r overtaken. */
  ghost predicate PlaceSeenPast(prev: Outcome, round: Round, r: int) {
    && 0 <= r < |prev.offRampNext|
    && SeenPast(round, prev.offRampNext[r].chain, prev.offRampNext[r].seqNum)
  }

  lemma MovedFacts(cfg: Config, prev: Outcome, cons: ConsensusObservation, out: Outcome) returns (r: nat)
    requires StepOn(cfg, prev, cons, out) && out.kind == ReportTransmitted
    requires Pending(prev) && !cfg.multipleReports && prev.roots != []
    ensures r < |prev.offRampNext| && Overtaken(prev, cons, r)
  {
    assert Transmitted(false, prev, cons);
    var c :| Advanced(prev, cons, c);
    r :| 0 <= r < |prev.offRampNext| && prev.offRampNext[r].chain == c && Overtaken(prev, cons, r);
  }

  /** With one report, an honest reader has seen some recorded chain move. */
  lemma TransmittedMeansMoved(cfg: Config, prev: Outcome, round: Round, out: Outcome) returns (r: nat)
    requires Tolerable(cfg, prev, round)
    requires Pending(prev) && !cfg.multipleReports && prev.roots != []
    requires Step(cfg, prev, round.aos, out) && out.kind == ReportTransmitted
    ensures PlaceSeenPast(prev, round, r) && Movable(prev.offRampNext[r])
  {
    var cons := StepHasConsensus(cfg, prev, round.aos, out);
    r := MovedFacts(cfg, prev, cons, out);
    OvertakenMeansSeen(cfg, prev, round, cons, r);
    SeenIsMovable(cfg, prev, round, prev.offRampNext[r]);
  }

  /** The checks let observations say that the off-ramp is past this number. */
  predicate Movable(s: SeqNumChain) {
    s.chain != 0 && s.seqNum < MAX_SEQ_NUM
  }

  lemma SeenIsMovable(cfg: Config, prev: Outcome, round: Round, s: SeqNumChain)
    requires Tolerable(cfg, prev, round) && SeenPast(round, s.chain, s.seqNum)
    ensures Movable(s)
  {
    var i, k :| HonestRead(round, s.chain, i, k) && round.aos[i].obs.offRampNext[k].seqNum > s.seqNum;
    assert ValidOffRampNext(round.aos[i].obs.offRampNext, cfg.dest in round.supports[round.aos[i].oracle]);
  }

  // ---------- in runs ----------

  lemma GeneratedHasRoots(cfg: Config, prev: Outcome, aos: seq<AttributedObservation>, out: Outcome)
    requires Step(cfg, prev, aos, out) && out.kind == ReportGenerated
    ensures out.roots != []
  {
    var cons := StepHasConsensus(cfg, prev, aos, out);
    GeneratedFacts(cfg, prev, cons, out);
    assert cons.merkleRoots.Keys != {};
    var c :| c in cons.merkleRoots;
    RootsKeyedByChain(cfg, aos, cons, c);
    assert cons.merkleRoots[c] in out.roots;
  }

  lemma RootsFrom(cfg: Config, prev: Outcome, aos: seq<AttributedObservation>, out: Outcome)
    requires Step(cfg, prev, aos, out) && Pending(out)
    ensures out.roots != [] || (Pending(prev) && out.roots == prev.roots)
  {
    if out.kind == ReportGenerated {
      GeneratedHasRoots(cfg, prev, aos, out);
    } else {
      InFlightIsCarriedOver(cfg, prev, aos, out);
    }
  }

  /** Pending roots exist, or are those pending before. */
  ghost predicate RootsLink(outs: seq<Outcome>, k: nat)
    requires k < |outs|
  {
    Pending(outs[k]) && outs[k].roots == [] ==> 0 < k && Pending(outs[k - 1]) && outs[k - 1].roots == []
  }

  lemma RunHasRootsLink(cfg: Config, rounds: seq<Round>, outs: seq<Outcome>, k: nat)
    requires IsRun(cfg, rounds, outs) && k < |outs|
    ensures RootsLink(outs, k)
  {
    if k > 0 && Pending(outs[k]) {
      RunStep(cfg, rounds, outs, k - 1);
      RootsFrom(cfg, outs[k - 1], rounds[k - 1].aos, outs[k]);
    }
  }

  lemma {:induction false} LinkedRoots(outs: seq<Outcome>, k: nat)
    requires k < |outs| && Pending(outs[k]) && forall j :: 0 <= j < |outs| ==> RootsLink(outs, j)
    ensures outs[k].roots != []
  {
    assert RootsLink(outs, k);
    if outs[k].roots == [] {
      LinkedRoots(outs, k - 1);
    }
  }

  lemma PendingHasRoots(cfg: Config, rounds: seq<Round>, outs: seq<Outcome>, k: nat)
    requires IsRun(cfg, rounds, outs) && k < |outs| && Pending(outs[k])
    ensures outs[k].roots != []
  {
    forall j | 0 <= j < |outs|
      ensures RootsLink(outs, j)
    {
      RunHasRootsLink(cfg, rounds, outs, j);
    }
    LinkedRoots(outs, k);
  }

  lemma RecordedIsAgreed(cfg: Config, prev: Outcome, cons: ConsensusObservation, out: Outcome, s: SeqNumChain)
    requires StepOn(cfg, prev, cons, out) && out.kind == ReportIntervalsSelected && s in out.offRampNext
    ensures s.chain in cons.offRampNext && cons.offRampNext[s.chain] == s.seqNum
  {
  }

  lemma RecordedIsRead(cfg: Config, prev: Outcome, round: Round, out: Outcome, s: SeqNumChain)
    requires Tolerable(cfg, prev, round) && Step(cfg, prev, round.aos, out)
    requires out.kind == ReportIntervalsSelected && s in out.offRampNext
    ensures ReadAtMost(round, s.chain, s.seqNum)
  {
    var cons := StepHasConsensus(cfg, prev, round.aos, out);
    RecordedIsAgreed(cfg, prev, cons, out, s);
    AgreedOffRampIsBracketed(cfg, prev, round, cons, s.chain);
  }

  /** A recorded number is at least the counter its chain began with. */
  lemma RecordedIsCounted(cfg: Config, rounds: seq<Round>, outs: seq<Outcome>, history: seq<Submission>,
                          initial: OffRamp, at: seq<nat>, k: nat, s: SeqNumChain)
    requires cfg.Valid() && IsRun(cfg, rounds, outs) && HonestReads(rounds, history, initial, at)
    requires k < |outs| && Pending(outs[k]) && s in outs[k].offRampNext
    ensures s.chain in initial && initial[s.chain] <= s.seqNum
  {
    PendingRootsMatchSelection(cfg, rounds, outs, k);
    var n := Selection(outs, k);
    RunStep(cfg, rounds, outs, n - 1);
    RecordedIsRead(cfg, outs[n - 1], rounds[n - 1], outs[n], s);
    ReadBelow(rounds, history, initial, at, n - 1, s.chain, s.seqNum);
  }

  /** So in every run something has been committed, just once: the recorded number of some chain. */
  lemma TransmittedMeansSomeCommitted(cfg: Config, rounds: seq<Round>, outs: seq<Outcome>, history: seq<Submission>,
                                      initial: OffRamp, at: seq<nat>, k: nat) returns (s: SeqNumChain)
    requires cfg.Valid() && IsRun(cfg, rounds, outs) && HonestReads(rounds, history, initial, at)
    requires k < |rounds| && Pending(outs[k]) && !cfg.multipleReports && outs[k + 1].kind == ReportTransmitted
    ensures s in outs[k].offRampNext
    ensures var committed := Committed(history[..at[k]], initial, s.chain);
            && (exists i :: Holds(committed, i, s.seqNum))
            && forall i, j :: Holds(committed, i, s.seqNum) && Holds(committed, j, s.seqNum) ==> i == j
  {
    PendingHasRoots(cfg, rounds, outs, k);
    RunStep(cfg, rounds, outs, k);
    var r := TransmittedMeansMoved(cfg, outs[k], rounds[k], outs[k + 1]);
    s := outs[k].offRampNext[r];
    RecordedIsCounted(cfg, rounds, outs, history, initial, at, k, s);
    ReadPast(rounds, history, initial, at, k, s.chain, s.seqNum);
    CommittedExactlyOnce(history[..at[k]], initial, s.chain, s.seqNum, Committed(history[..at[k]], initial, s.chain),
                         After(history[..at[k]], initial));
  }

  // ---------- when it is about the pending roots ----------

  ghost predicate HasRoot(prev: Outcome, c: ChainSelector) {
    exists j :: 0 <= j < |prev.roots| && prev.roots[j].chain == c
  }

  /** Every recorded chain that can move has a pending root. */
  ghost predicate AllPending(prev: Outcome) {
    forall r :: 0 <= r < |prev.offRampNext| && Movable(prev.offRampNext[r]) ==> HasRoot(prev, prev.offRampNext[r].chain)
  }

  /** An honest reader has seen the chain of a pending root move. */
  ghost predicate RootSeenPast(prev: Outcome, round: Round) {
    exists r :: PlaceSeenPast(prev, round, r) && HasRoot(prev, prev.offRampNext[r].chain)
  }

  /** Whatever round ends the wait, it has. */
  ghost predicate AlwaysAboutRoots(cfg: Config, prev: Outcome) {
    forall round: Round, out: Outcome ::
      Tolerable(cfg, prev, round) && Step(cfg, prev, round.aos, out) && out.kind == ReportTransmitted ==>
        RootSeenPast(prev, round)
  }

  /** Everyone sees chain s.chain just past s.seqNum. */
  function Past(cfg: Config, s: SeqNumChain): Observation
    requires Movable(s)
  {
    Observation([], [], [SeqNumChain(s.chain, s.seqNum + 1)], map[cfg.dest := 1])
  }

  lemma PastEchoes(cfg: Config, s: SeqNumChain, obs: Observation, cons: ConsensusObservation)
    requires Movable(s) && obs == Past(cfg, s)
    requires cons == ConsensusObservation(map[], map[], map[s.chain := s.seqNum + 1], obs.fChain)
    ensures Echoes(cfg, obs, cons) && ValidObservation(obs, {cfg.dest}, cfg.dest)
  {
    assert SeqNumEntries(obs.offRampNext)[0] == (s.chain, s.seqNum + 1);
  }

  lemma PastStep(cfg: Config, prev: Outcome, r: nat, obs: Observation, n: nat)
    requires Pending(prev) && !cfg.multipleReports && r < |prev.offRampNext| && Movable(prev.offRampNext[r])
    requires obs == Past(cfg, prev.offRampNext[r]) && n >= 2 * cfg.f + 3
    ensures Step(cfg, prev, Chorus(obs, n), OfKind(ReportTransmitted))
  {
    var s := prev.offRampNext[r];
    var cons := ConsensusObservation(map[], map[], map[s.chain := s.seqNum + 1], obs.fChain);
    PastEchoes(cfg, s, obs, cons);
    assert Advanced(prev, cons, s.chain);
    UnanimousStep(cfg, prev, obs, n, {cfg.dest}, cons, OfKind(ReportTransmitted));
  }

  lemma OnlyThatRead(cfg: Config, prev: Outcome, s: SeqNumChain, round: Round, n: nat)
    requires Movable(s) && round == UnanimousRound(Past(cfg, s), n, {cfg.dest}) && !HasRoot(prev, s.chain)
    ensures !RootSeenPast(prev, round)
  {
    forall c, i, k | HonestRead(round, c, i, k)
      ensures c == s.chain
    {
      assert round.aos[i].obs == Past(cfg, s);
    }
  }

  /** A round in which just that chain moves ends the wait. */
  lemma OtherChainMoves(cfg: Config, prev: Outcome, r: nat) returns (round: Round)
    requires Pending(prev) && !cfg.multipleReports && r < |prev.offRampNext| && Movable(prev.offRampNext[r])
    requires !HasRoot(prev, prev.offRampNext[r].chain)
    ensures Tolerable(cfg, prev, round) && Step(cfg, prev, round.aos, OfKind(ReportTransmitted))
    ensures !RootSeenPast(prev, round)
  {
    var s := prev.offRampNext[r];
    var obs, n := Past(cfg, s), 2 * cfg.f + 3;
    round := UnanimousRound(obs, n, {cfg.dest});
    PastEchoes(cfg, s, obs, ConsensusObservation(map[], map[], map[s.chain := s.seqNum + 1], obs.fChain));
    UnanimousTolerable(cfg, prev, obs, n, {cfg.dest}, round);
    PastStep(cfg, prev, r, obs, n);
    OnlyThatRead(cfg, prev, s, round, n);
  }

  /** Ending the wait says something about the pending roots exactly if every recorded chain that can
      move has one. */
  lemma AboutRootsExactly(cfg: Config, prev: Outcome)
    requires Pending(prev) && !cfg.multipleReports && prev.roots != []
    ensures AlwaysAboutRoots(cfg, prev) <==> AllPending(prev)
  {
    if AllPending(prev) {
      forall round: Round, out: Outcome
        | Tolerable(cfg, prev, round) && Step(cfg, prev, round.aos, out) && out.kind == ReportTransmitted
        ensures RootSeenPast(prev, round)
      {
        var r := TransmittedMeansMoved(cfg, prev, round, out);
      }
    } else {
      var r :| 0 <= r < |prev.offRampNext| && Movable(prev.offRampNext[r]) && !HasRoot(prev, prev.offRampNext[r].chain);
      var round := OtherChainMoves(cfg, prev, r);
    }
  }
}
