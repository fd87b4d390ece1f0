/** Runs of the merkle-root processor: what is reported is what was selected, and waiting ends. */
module MerkleRootRuns {
  import opened CcipTypes
  import opened MerkleRoot
  import opened MerkleRootSafety

  /** outs[k + 1] is the outcome of round k; the run starts from the empty outcome. */
  ghost predicate IsRun(cfg: Config, rounds: seq<Round>, outs: seq<Outcome>) {
    && |outs| == |rounds| + 1
    && outs[0] == OfKind(Unset)
    && forall k :: 0 <= k < |rounds| ==>
         Tolerable(cfg, outs[k], rounds[k]) && Step(cfg, outs[k], rounds[k].aos, outs[k + 1])
  }

  /** A report has been built and not yet been confirmed or given up. */
  ghost predicate Pending(o: Outcome) {
    o.kind == ReportGenerated || o.kind == ReportInFlight
  }

  /** A selection: by chain, each range starting at the recorded off-ramp number, which lies between two
      honest reads, not empty, not larger than a merkle tree may be, and seen by an honest reader of
      its chain. */
  ghost predicate GoodSelection(cfg: Config, round: Round, o: Outcome) {
    && RangesAscend(o.ranges)
    && SeqNumsAscend(o.offRampNext)
    && forall r :: r in o.ranges ==> GoodRange(cfg, round, o, r)
  }

  ghost predicate GoodRange(cfg: Config, round: Round, o: Outcome, r: ChainRange) {
    && SeqNumChain(r.chain, r.range.start) in o.offRampNext
    && 1 <= r.range.start
    && 1 <= r.range.Size() <= cfg.maxTreeSize
    && SeenOnRamp(round, r.chain, r.range.end)
    && ReadAtMost(round, r.chain, r.range.start) && ReadAtLeast(round, r.chain, r.range.start)
  }

  lemma SelectedRangeSource(cfg: Config, prev: Outcome, cons: ConsensusObservation, out: Outcome, r: ChainRange)
    requires StepOn(cfg, prev, cons, out) && out.kind == ReportIntervalsSelected && r in out.ranges
    ensures HasNew(cons, r.chain) && r.range == NewRange(cons, cfg.maxTreeSize, r.chain)
    ensures SeqNumChain(r.chain, cons.offRampNext[r.chain]) in out.offRampNext
  {
  }

  lemma SelectedRangeSize(cfg: Config, cons: ConsensusObservation, c: ChainSelector)
    requires cfg.Valid() && HasNew(cons, c) && cons.offRampNext[c] >= 1
    ensures var r := NewRange(cons, cfg.maxTreeSize, c);
            r.start == cons.offRampNext[c] && r.end <= cons.onRampMax[c] && 1 <= r.Size() <= cfg.maxTreeSize
  {
    LimitIsPrefix(SeqNumRange(cons.offRampNext[c], cons.onRampMax[c]), cfg.maxTreeSize);
  }

  lemma SeenFurther(round: Round, c: ChainSelector, s: SeqNum, t: SeqNum)
    requires SeenOnRamp(round, c, s) && t <= s
    ensures SeenOnRamp(round, c, t)
  {
  }

  lemma SelectedRangeIsGood(cfg: Config, prev: Outcome, round: Round, cons: ConsensusObservation, out: Outcome,
                            r: ChainRange)
    requires cfg.Valid() && Tolerable(cfg, prev, round)
    requires IsConsensus(cfg, round.aos, cons) && StepOn(cfg, prev, cons, out)
    requires out.kind == ReportIntervalsSelected && r in out.ranges
    ensures GoodRange(cfg, round, out, r)
  {
    SelectedRangeSource(cfg, prev, cons, out, r);
    AgreedOffRampIsPositive(cfg, prev, round, cons, r.chain);
    AgreedOffRampIsBracketed(cfg, prev, round, cons, r.chain);
    AgreedOnRampIsSeen(cfg, prev, round, cons, r.chain);
    SelectedRangeSize(cfg, cons, r.chain);
    SeenFurther(round, r.chain, cons.onRampMax[r.chain], r.range.end);
  }

  lemma SelectionAscends(cfg: Config, prev: Outcome, cons: ConsensusObservation, out: Outcome)
    requires StepOn(cfg, prev, cons, out) && out.kind == ReportIntervalsSelected
    ensures RangesAscend(out.ranges) && SeqNumsAscend(out.offRampNext)
  {
  }

  lemma SelectionIsGood(cfg: Config, prev: Outcome, round: Round, out: Outcome)
    requires cfg.Valid() && Tolerable(cfg, prev, round)
    requires Step(cfg, prev, round.aos, out) && out.kind == ReportIntervalsSelected
    ensures GoodSelection(cfg, round, out)
  {
    var cons := StepHasConsensus(cfg, prev, round.aos, out);
    SelectionAscends(cfg, prev, cons, out);
    forall r | r in out.ranges
      ensures GoodRange(cfg, round, out, r)
    {
      SelectedRangeIsGood(cfg, prev, round, cons, out, r);
    }
  }

  /** A report built from a selection: by chain, each root of the selected range of its chain and
      backed by more honest oracles than its chain may have faulty ones. */
  ghost predicate BuiltFrom(selection: Outcome, round: Round, o: Outcome) {
    && RootsAscend(o.roots)
    && o.offRampNext == selection.offRampNext
    && forall root :: root in o.roots ==> GoodRoot(selection, round, root)
  }

  ghost predicate GoodRoot(selection: Outcome, round: Round, root: MerkleRootChain) {
    && ChainRange(root.chain, root.range) in selection.ranges
    && root.chain in round.homeF
    && |HonestWitnesses(round, root)| > round.homeF[root.chain]
  }

  lemma GeneratedFacts(cfg: Config, prev: Outcome, cons: ConsensusObservation, out: Outcome)
    requires StepOn(cfg, prev, cons, out) && out.kind == ReportGenerated
    ensures NextState(prev) == BuildingReport && prev.kind == ReportIntervalsSelected
    ensures RootsAscend(out.roots) && out.offRampNext == prev.offRampNext
    ensures forall root :: root in out.roots ==> root.chain in cons.merkleRoots && cons.merkleRoots[root.chain] == root
  {
  }

  lemma GeneratedIsBuiltFromSelection(cfg: Config, prev: Outcome, round: Round, out: Outcome)
    requires Tolerable(cfg, prev, round)
    requires Step(cfg, prev, round.aos, out) && out.kind == ReportGenerated
    ensures prev.kind == ReportIntervalsSelected
    ensures BuiltFrom(prev, round, out)
  {
    var cons := StepHasConsensus(cfg, prev, round.aos, out);
    GeneratedFacts(cfg, prev, cons, out);
    forall root | root in out.roots
      ensures GoodRoot(prev, round, root)
    {
      AgreedRootHasSelectedRange(cfg, prev, round, cons, root.chain);
      AgreedRootIsWitnessed(cfg, prev, round, cons, root.chain);
    }
  }

  lemma InFlightFacts(cfg: Config, prev: Outcome, cons: ConsensusObservation, out: Outcome)
    requires StepOn(cfg, prev, cons, out) && out.kind == ReportInFlight
    ensures Pending(prev)
    ensures out.roots == prev.roots && out.offRampNext == prev.offRampNext
    ensures out.attempts == Counted(prev.attempts + 1) && prev.attempts + 1 < cfg.maxAttempts
  {
  }

  lemma InFlightIsCarriedOver(cfg: Config, prev: Outcome, aos: seq<AttributedObservation>, out: Outcome)
    requires Step(cfg, prev, aos, out) && out.kind == ReportInFlight
    ensures Pending(prev)
    ensures out.roots == prev.roots && out.offRampNext == prev.offRampNext
    ensures out.attempts == Counted(prev.attempts + 1) && prev.attempts + 1 < cfg.maxAttempts
  {
    var cons := StepHasConsensus(cfg, prev, aos, out);
    InFlightFacts(cfg, prev, cons, out);
  }

  lemma GeneratedNotFromWaiting(cfg: Config, prev: Outcome, aos: seq<AttributedObservation>, out: Outcome)
    requires Step(cfg, prev, aos, out) && out.kind == ReportGenerated
    ensures prev.kind == ReportIntervalsSelected
  {
    var cons := StepHasConsensus(cfg, prev, aos, out);
    GeneratedFacts(cfg, prev, cons, out);
  }

  /** The last outcome before k that selected ranges for the report pending at k. */
  ghost function Selection(outs: seq<Outcome>, k: nat): nat
    requires 0 < k < |outs|
  {
    if outs[k].kind == ReportGenerated || k == 1 then k - 1 else Selection(outs, k - 1)
  }

  /** o carries a report built in one round from the ranges selected in the round before it. */
  ghost predicate Matches(cfg: Config, selecting: Round, selection: Outcome, building: Round, o: Outcome) {
    && selection.kind == ReportIntervalsSelected
    && GoodSelection(cfg, selecting, selection)
    && BuiltFrom(selection, building, o)
    && forall root :: root in o.roots ==> RootFits(cfg, o, root)
  }

  /** The root starts at the off-ramp number carried for its chain and has a permitted size. */
  ghost predicate RootFits(cfg: Config, o: Outcome, root: MerkleRootChain) {
    SeqNumChain(root.chain, root.range.start) in o.offRampNext && 1 <= root.range.Size() <= cfg.maxTreeSize
  }

  lemma RootsOfGoodRanges(cfg: Config, selecting: Round, selection: Outcome, building: Round, o: Outcome,
                          root: MerkleRootChain)
    requires GoodSelection(cfg, selecting, selection) && BuiltFrom(selection, building, o)
    requires root in o.roots
    ensures RootFits(cfg, o, root)
  {
    assert GoodRoot(selection, building, root);
    assert GoodRange(cfg, selecting, selection, ChainRange(root.chain, root.range));
  }

  lemma GeneratedMatches(cfg: Config, before: Outcome, selecting: Round, selection: Outcome, building: Round,
                         o: Outcome)
    requires cfg.Valid()
    requires Tolerable(cfg, before, selecting) && Step(cfg, before, selecting.aos, selection)
    requires Tolerable(cfg, selection, building) && Step(cfg, selection, building.aos, o)
    requires o.kind == ReportGenerated && selection.kind == ReportIntervalsSelected
    ensures Matches(cfg, selecting, selection, building, o)
  {
    GeneratedIsBuiltFromSelection(cfg, selection, building, o);
    SelectionIsGood(cfg, before, selecting, selection);
    forall root | root in o.roots
      ensures RootFits(cfg, o, root)
    {
      RootsOfGoodRanges(cfg, selecting, selection, building, o, root);
    }
  }

  lemma CarriedMatches(cfg: Config, selecting: Round, selection: Outcome, building: Round, o: Outcome, later: Outcome)
    requires Matches(cfg, selecting, selection, building, o)
    requires later.roots == o.roots && later.offRampNext == o.offRampNext
    ensures Matches(cfg, selecting, selection, building, later)
  {
    assert forall root :: root in later.roots ==> RootFits(cfg, o, root);
  }

  lemma RunStep(cfg: Config, rounds: seq<Round>, outs: seq<Outcome>, k: nat)
    requires IsRun(cfg, rounds, outs) && k < |rounds|
    ensures Tolerable(cfg, outs[k], rounds[k]) && Step(cfg, outs[k], rounds[k].aos, outs[k + 1])
  {
  }

  lemma GeneratedMatchesInRun(cfg: Config, rounds: seq<Round>, outs: seq<Outcome>, k: nat)
    requires cfg.Valid() && IsRun(cfg, rounds, outs)
    requires 0 < k < |outs| && outs[k].kind == ReportGenerated
    ensures 1 < k && Matches(cfg, rounds[k - 2], outs[k - 1], rounds[k - 1], outs[k])
  {
    RunStep(cfg, rounds, outs, k - 1);
    GeneratedNotFromWaiting(cfg, outs[k - 1], rounds[k - 1].aos, outs[k]);
    RunStep(cfg, rounds, outs, k - 2);
    GeneratedMatches(cfg, outs[k - 2], rounds[k - 2], outs[k - 1], rounds[k - 1], outs[k]);
  }

  /** Outcome k got its pending report from the outcome before it, or built it itself. */
  ghost predicate PendingLink(cfg: Config, rounds: seq<Round>, outs: seq<Outcome>, k: nat)
    requires k < |outs| == |rounds| + 1
  {
    && (outs[k].kind == ReportInFlight ==>
          0 < k && Pending(outs[k - 1]) && outs[k].roots == outs[k - 1].roots
            && outs[k].offRampNext == outs[k - 1].offRampNext)
    && (outs[k].kind == ReportGenerated ==>
          1 < k && Matches(cfg, rounds[k - 2], outs[k - 1], rounds[k - 1], outs[k]))
  }

  lemma RunHasPendingLink(cfg: Config, rounds: seq<Round>, outs: seq<Outcome>, k: nat)
    requires cfg.Valid() && IsRun(cfg, rounds, outs) && k < |outs|
    ensures PendingLink(cfg, rounds, outs, k)
  {
    if k > 0 {
      RunStep(cfg, rounds, outs, k - 1);
      match outs[k].kind
      case ReportGenerated => GeneratedMatchesInRun(cfg, rounds, outs, k);
      case ReportInFlight => InFlightIsCarriedOver(cfg, outs[k - 1], rounds[k - 1].aos, outs[k]);
      case _ =>
    }
  }

  lemma {:induction false} LinkedPendingMatches(cfg: Config, rounds: seq<Round>, outs: seq<Outcome>, k: nat)
    requires k < |outs| == |rounds| + 1 && Pending(outs[k])
    requires forall j :: 0 <= j <= k ==> PendingLink(cfg, rounds, outs, j)
    ensures 0 < k && 0 < Selection(outs, k) < k
    ensures Matches(cfg, rounds[Selection(outs, k) - 1], outs[Selection(outs, k)], rounds[Selection(outs, k)], outs[k])
    decreases k
  {
    assert PendingLink(cfg, rounds, outs, k);
    if outs[k].kind == ReportInFlight {
      LinkedPendingMatches(cfg, rounds, outs, k - 1);
      var s := Selection(outs, k - 1);
      CarriedMatches(cfg, rounds[s - 1], outs[s], rounds[s], outs[k - 1], outs[k]);
    }
  }

  /** In every run, every pending report has exactly the roots of ranges selected in one earlier
      round: each root covers the selected range of its chain, starts at the off-ramp number still
      carried for that chain, has between one and the permitted number of messages, and the roots
      are strictly sorted by chain. More honest oracles than the chain may have faulty ones
      observed the root, and one of its honest readers had seen its last message. */
  lemma PendingRootsMatchSelection(cfg: Config, rounds: seq<Round>, outs: seq<Outcome>, k: nat)
    requires cfg.Valid() && IsRun(cfg, rounds, outs)
    requires k < |outs| && Pending(outs[k])
    ensures 0 < k && 0 < Selection(outs, k) < k
    ensures Matches(cfg, rounds[Selection(outs, k) - 1], outs[Selection(outs, k)], rounds[Selection(outs, k)], outs[k])
  {
    forall j | 0 <= j <= k
      ensures PendingLink(cfg, rounds, outs, j)
    {
      RunHasPendingLink(cfg, rounds, outs, j);
    }
    LinkedPendingMatches(cfg, rounds, outs, k);
  }

  // ---------- waiting ----------

  /** Rounds i, ..., i + n - 1 are all spent waiting for a transmission. */
  ghost predicate WaitingThroughout(outs: seq<Outcome>, i: nat, n: nat)
    requires i + n < |outs|
  {
    forall k :: i <= k < i + n ==> NextState(outs[k]) == WaitingForTransmission
  }

  /** A waiting round that leads to another one spends an attempt and stays below the limit. */
  ghost predicate WaitLink(cfg: Config, prev: Outcome, out: Outcome) {
    NextState(prev) == WaitingForTransmission && NextState(out) == WaitingForTransmission ==>
      out.attempts == Counted(prev.attempts + 1) && prev.attempts + 1 < cfg.maxAttempts
  }

  lemma StepIsWaitLink(cfg: Config, prev: Outcome, aos: seq<AttributedObservation>, out: Outcome)
    requires Step(cfg, prev, aos, out)
    ensures WaitLink(cfg, prev, out)
  {
    match out.kind
    case ReportInFlight => InFlightIsCarriedOver(cfg, prev, aos, out);
    case ReportGenerated => GeneratedNotFromWaiting(cfg, prev, aos, out);
    case _ =>
  }

  /** In a wait that has lasted n rounds and goes on, at least n attempts have been spent, and the
      limit has not been reached, if 32 bits can count up to it. */
  lemma {:induction false} AttemptsCountUp(cfg: Config, outs: seq<Outcome>, i: nat, n: nat)
    requires i + n < |outs| && WaitingThroughout(outs, i, n)
    requires forall k :: 0 <= k < |outs| - 1 ==> WaitLink(cfg, outs[k], outs[k + 1])
    requires NextState(outs[i + n]) == WaitingForTransmission && cfg.maxAttempts <= UINT32_MODULUS
    ensures outs[i + n].attempts >= n
    ensures n > 0 ==> outs[i + n].attempts < cfg.maxAttempts
    decreases n
  {
    if n > 0 {
      AttemptsCountUp(cfg, outs, i, n - 1);
      assert WaitLink(cfg, outs[i + n - 1], outs[i + n - 1 + 1]);
    }
  }

  /** outs are the outcomes of rounds with these observations, whoever lies and whatever the first one is. */
  ghost predicate IsChainOf(cfg: Config, aos: seq<seq<AttributedObservation>>, outs: seq<Outcome>) {
    && |outs| == |aos| + 1
    && forall k :: 0 <= k < |aos| ==> Step(cfg, outs[k], aos[k], outs[k + 1])
  }

  /** If 32 bits can count up to the limit, none of them waits for more than the configured number of
      rounds, or one round if none is configured. */
  lemma WaitsEnd(cfg: Config, aos: seq<seq<AttributedObservation>>, outs: seq<Outcome>, i: nat, n: nat)
    requires IsChainOf(cfg, aos, outs) && cfg.maxAttempts <= UINT32_MODULUS
    requires i + n < |outs| && WaitingThroughout(outs, i, n)
    ensures n <= if cfg.maxAttempts > 1 then cfg.maxAttempts else 1
  {
    forall k | 0 <= k < |outs| - 1
      ensures WaitLink(cfg, outs[k], outs[k + 1])
    {
      StepIsWaitLink(cfg, outs[k], aos[k], outs[k + 1]);
    }
    if n > 1 {
      AttemptsCountUp(cfg, outs, i, n - 1);
    }
  }

  lemma TransmittedFacts(cfg: Config, prev: Outcome, cons: ConsensusObservation, out: Outcome, i: nat)
    requires StepOn(cfg, prev, cons, out) && out.kind == ReportTransmitted
    requires Pending(prev) && cfg.multipleReports && i < |prev.roots|
    ensures exists r :: 0 <= r < |prev.offRampNext| && prev.offRampNext[r].chain == prev.roots[i].chain
                        && Overtaken(prev, cons, r)
  {
    assert Transmitted(true, prev, cons);
    assert Advanced(prev, cons, prev.roots[i].chain);
  }

  /** An honest destination reader has seen the off-ramp's number for chain c above s. */
  ghost predicate SeenPast(round: Round, c: ChainSelector, s: SeqNum) {
    exists i, k :: HonestRead(round, c, i, k) && round.aos[i].obs.offRampNext[k].seqNum > s
  }

  lemma OvertakenMeansSeen(cfg: Config, prev: Outcome, round: Round, cons: ConsensusObservation, r: nat)
    requires Tolerable(cfg, prev, round) && IsConsensus(cfg, round.aos, cons)
    requires r < |prev.offRampNext| && Overtaken(prev, cons, r)
    ensures SeenPast(round, prev.offRampNext[r].chain, prev.offRampNext[r].seqNum)
  {
    var c := prev.offRampNext[r].chain;
    AgreedOffRampIsBracketed(cfg, prev, round, cons, c);
    var j, k :| HonestRead(round, c, j, k) && round.aos[j].obs.offRampNext[k].seqNum >= cons.offRampNext[c];
  }

  /** With several reports, ReportTransmitted means that for every pending root an honest
      destination reader has seen the off-ramp move past a number recorded for its chain. */
  lemma TransmittedMeansAdvanced(cfg: Config, prev: Outcome, round: Round, out: Outcome, i: nat)
    requires Tolerable(cfg, prev, round)
    requires Pending(prev) && cfg.multipleReports && i < |prev.roots|
    requires Step(cfg, prev, round.aos, out) && out.kind == ReportTransmitted
    ensures exists r :: 0 <= r < |prev.offRampNext| && prev.offRampNext[r].chain == prev.roots[i].chain
                        && SeenPast(round, prev.offRampNext[r].chain, prev.offRampNext[r].seqNum)
  {
    var cons := StepHasConsensus(cfg, prev, round.aos, out);
    TransmittedFacts(cfg, prev, cons, out, i);
    var r :| 0 <= r < |prev.offRampNext| && prev.offRampNext[r].chain == prev.roots[i].chain
      && Overtaken(prev, cons, r);
    OvertakenMeansSeen(cfg, prev, round, cons, r);
  }
}
