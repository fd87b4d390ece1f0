/** What a round of the merkle-root processor makes of the agreed numbers, spelled out, and that honest
    oracles get their way although some oracles lie. */
module MerkleRootProgress {
  import opened CcipTypes
  import opened Sorting
  import opened Votes
  import opened Consensus
  import opened Agreement
  import opened MerkleRoot
  import opened MerkleRootSafety
  import opened MerkleRootRuns

  // ---------- selecting, number by number ----------

  /** The agreed numbers say that chain c has messages the off-ramp does not know. */
  ghost predicate NewMessages(cons: ConsensusObservation, c: ChainSelector) {
    && c in cons.offRampNext && c in cons.onRampMax
    && cons.offRampNext[c] <= cons.onRampMax[c]
  }

  /** Neither a selection nor a pending report comes before. */
  ghost predicate Idle(prev: Outcome) {
    prev.kind != ReportIntervalsSelected && prev.kind != ReportGenerated && prev.kind != ReportInFlight
  }

  lemma LimitedEnd(r: SeqNumRange, n: nat)
    requires 1 <= r.start <= r.end && 1 <= n < UINT64_MODULUS
    ensures r.Limit(n) == SeqNumRange(r.start, if r.end - r.start < n then r.end else r.start + n - 1)
  {
    LimitIsPrefix(r, n);
  }

  /** A chain is selected exactly if the agreed numbers say that it has new messages: from the next number
      to the last one, or as many as a tree may have. Without such a chain the outcome is empty. */
  lemma SelectedExactly(cfg: Config, prev: Outcome, cons: ConsensusObservation, out: Outcome)
    requires cfg.Valid() && Idle(prev) && StepOn(cfg, prev, cons, out)
    requires forall c :: c in cons.offRampNext ==> cons.offRampNext[c] >= 1
    ensures out.kind == ReportEmpty <==> forall c :: !NewMessages(cons, c)
    ensures out == Outcome(ReportEmpty, [], [], [], 0) || (out.kind == ReportIntervalsSelected && out.attempts == 0)
    ensures forall c, range: SeqNumRange :: ChainRange(c, range) in out.ranges <==>
              && NewMessages(cons, c) && range.start == cons.offRampNext[c]
              && range.end == if cons.onRampMax[c] - cons.offRampNext[c] < cfg.maxTreeSize then cons.onRampMax[c]
                              else cons.offRampNext[c] + cfg.maxTreeSize - 1
  {
    forall c
      ensures HasNew(cons, c) <==> NewMessages(cons, c)
    {
    }
    forall c | NewMessages(cons, c)
      ensures NewRange(cons, cfg.maxTreeSize, c) ==
              SeqNumRange(cons.offRampNext[c],
                          if cons.onRampMax[c] - cons.offRampNext[c] < cfg.maxTreeSize then cons.onRampMax[c]
                          else cons.offRampNext[c] + cfg.maxTreeSize - 1)
    {
      LimitedEnd(SeqNumRange(cons.offRampNext[c], cons.onRampMax[c]), cfg.maxTreeSize);
    }
  }

  // ---------- waiting, number by number ----------

  /** The agreed off-ramp number of the chain is above the one recorded at place r. */
  ghost predicate MovedOn(prev: Outcome, cons: ConsensusObservation, r: int) {
    && 0 <= r < |prev.offRampNext| && prev.offRampNext[r].chain in cons.offRampNext
    && cons.offRampNext[prev.offRampNext[r].chain] > prev.offRampNext[r].seqNum
  }

  ghost predicate ChainMoved(prev: Outcome, cons: ConsensusObservation, c: ChainSelector) {
    exists r :: MovedOn(prev, cons, r) && prev.offRampNext[r].chain == c
  }

  /** With several reports the chain of every root has to move on, with one any recorded chain. */
  ghost predicate OnChain(several: bool, prev: Outcome, cons: ConsensusObservation) {
    if several then forall i :: 0 <= i < |prev.roots| ==> ChainMoved(prev, cons, prev.roots[i].chain)
    else prev.roots == [] || exists r :: MovedOn(prev, cons, r)
  }

  lemma AdvancedMeansMoved(prev: Outcome, cons: ConsensusObservation, c: ChainSelector)
    ensures Advanced(prev, cons, c) <==> ChainMoved(prev, cons, c)
  {
    if Advanced(prev, cons, c) {
      var r :| 0 <= r < |prev.offRampNext| && prev.offRampNext[r].chain == c && Overtaken(prev, cons, r);
      assert MovedOn(prev, cons, r);
    }
    if ChainMoved(prev, cons, c) {
      var r :| MovedOn(prev, cons, r) && prev.offRampNext[r].chain == c;
      assert Overtaken(prev, cons, r);
    }
  }

  lemma OnChainIsTransmitted(several: bool, prev: Outcome, cons: ConsensusObservation)
    ensures Transmitted(several, prev, cons) <==> OnChain(several, prev, cons)
  {
    forall c
      ensures Advanced(prev, cons, c) <==> ChainMoved(prev, cons, c)
    {
      AdvancedMeansMoved(prev, cons, c);
    }
    if r :| MovedOn(prev, cons, r) {
      assert ChainMoved(prev, cons, prev.offRampNext[r].chain);
    }
  }

  /** A wait ends with ReportTransmitted exactly then, else with the last attempt, and goes on otherwise
      with the same roots and numbers. */
  lemma WaitedExactly(cfg: Config, prev: Outcome, cons: ConsensusObservation, out: Outcome)
    requires Pending(prev) && StepOn(cfg, prev, cons, out)
    ensures out.kind == ReportTransmitted <==> OnChain(cfg.multipleReports, prev, cons)
    ensures out.kind == ReportTransmissionFailed <==>
            !OnChain(cfg.multipleReports, prev, cons) && prev.attempts + 1 >= cfg.maxAttempts
    ensures out.kind == ReportInFlight <==>
            !OnChain(cfg.multipleReports, prev, cons) && prev.attempts + 1 < cfg.maxAttempts
    ensures out.kind == ReportInFlight ==> out.roots == prev.roots && out.offRampNext == prev.offRampNext
    ensures out.kind != ReportInFlight ==> out == Outcome(out.kind, [], [], [], 0)
  {
    OnChainIsTransmitted(cfg.multipleReports, prev, cons);
  }

  // ---------- rounds ----------

  ghost predicate Mentions(numbers: seq<SeqNumChain>, c: ChainSelector) {
    exists k :: 0 <= k < |numbers| && numbers[k].chain == c
  }

  /** The oracles that report an off-ramp number of chain c. */
  ghost function OffRampReaders(round: Round, c: ChainSelector): set<OracleId> {
    set i | 0 <= i < |round.aos| && Mentions(round.aos[i].obs.offRampNext, c) :: round.aos[i].oracle
  }

  /** The oracles that report an on-ramp number of chain c. */
  ghost function OnRampReaders(round: Round, c: ChainSelector): set<OracleId> {
    set i | 0 <= i < |round.aos| && Mentions(round.aos[i].obs.onRampMax, c) :: round.aos[i].oracle
  }

  lemma OffRampPool(round: Round, c: ChainSelector, bs: seq<Ballot<SeqNum>>)
    requires bs == OffRampBallots(round.aos) && OneVoteEach(bs)
    ensures |Pooled(bs, c)| == |OffRampReaders(round, c)|
  {
    PoolIsSpeakers(bs, c);
    forall o | o in OffRampReaders(round, c)
      ensures o in Speakers(bs, c)
    {
      var i :| 0 <= i < |round.aos| && Mentions(round.aos[i].obs.offRampNext, c) && round.aos[i].oracle == o;
      var k :| 0 <= k < |round.aos[i].obs.offRampNext| && round.aos[i].obs.offRampNext[k].chain == c;
      assert bs[i].entries[k].0 == c;
    }
    forall o | o in Speakers(bs, c)
      ensures o in OffRampReaders(round, c)
    {
      var i, k :| 0 <= i < |bs| && 0 <= k < |bs[i].entries| && bs[i].entries[k].0 == c && bs[i].oracle == o;
      assert round.aos[i].obs.offRampNext[k].chain == c;
    }
    assert Speakers(bs, c) == OffRampReaders(round, c);
  }

  lemma OnRampPool(round: Round, c: ChainSelector, bs: seq<Ballot<SeqNum>>)
    requires bs == OnRampBallots(round.aos) && OneVoteEach(bs)
    ensures |Pooled(bs, c)| == |OnRampReaders(round, c)|
  {
    PoolIsSpeakers(bs, c);
    forall o | o in OnRampReaders(round, c)
      ensures o in Speakers(bs, c)
    {
      var i :| 0 <= i < |round.aos| && Mentions(round.aos[i].obs.onRampMax, c) && round.aos[i].oracle == o;
      var k :| 0 <= k < |round.aos[i].obs.onRampMax| && round.aos[i].obs.onRampMax[k].chain == c;
      assert bs[i].entries[k].0 == c;
    }
    forall o | o in Speakers(bs, c)
      ensures o in OnRampReaders(round, c)
    {
      var i, k :| 0 <= i < |bs| && 0 <= k < |bs[i].entries| && bs[i].entries[k].0 == c && bs[i].oracle == o;
      assert round.aos[i].obs.onRampMax[k].chain == c;
    }
    assert Speakers(bs, c) == OnRampReaders(round, c);
  }

  /** The agreed f of the destination and of c, and enough readers of both. */
  ghost predicate EnoughReaders(cfg: Config, round: Round, fChain: map<ChainSelector, nat>, c: ChainSelector) {
    && IsFChain(cfg, round.aos, fChain) && cfg.dest in fChain && c in fChain && fChain[c] > 0
    && |OffRampReaders(round, c)| >= 2 * fChain[cfg.dest] + 1 && |OnRampReaders(round, c)| >= 2 * fChain[c] + 1
  }

  /** No honest oracle reports an off-ramp number of c above m. */
  ghost predicate HonestNextAtMost(round: Round, c: ChainSelector, m: SeqNum) {
    forall i, k :: HonestRead(round, c, i, k) ==> round.aos[i].obs.offRampNext[k].seqNum <= m
  }

  /** The k-th on-ramp number of observation i is for chain c and comes from an honest oracle. */
  ghost predicate HonestMax(round: Round, c: ChainSelector, i: int, k: int) {
    0 <= i < |round.aos| && round.aos[i].oracle !in round.faulty
    && 0 <= k < |round.aos[i].obs.onRampMax| && round.aos[i].obs.onRampMax[k].chain == c
  }

  /** No honest oracle reports an on-ramp number of c below m. */
  ghost predicate HonestMaxAtLeast(round: Round, c: ChainSelector, m: SeqNum) {
    forall i, k :: HonestMax(round, c, i, k) ==> round.aos[i].obs.onRampMax[k].seqNum >= m
  }

  lemma AgreedF(cfg: Config, aos: seq<AttributedObservation>, cons: ConsensusObservation,
                fChain: map<ChainSelector, nat>)
    requires IsConsensus(cfg, aos, cons) && IsFChain(cfg, aos, fChain)
    ensures cons.fChain == fChain
  {
    AgreementUnique(FChainBallots(aos), ConstantThreshold(TwoFPlus1(cfg.f)), cons.fChain, fChain);
  }

  lemma HonestNextAgreed(cfg: Config, prev: Outcome, round: Round, cons: ConsensusObservation, c: ChainSelector,
                         m: SeqNum)
    requires Tolerable(cfg, prev, round) && IsConsensus(cfg, round.aos, cons) && cfg.dest in cons.fChain
    requires |OffRampReaders(round, c)| >= 2 * cons.fChain[cfg.dest] + 1 && HonestNextAtMost(round, c, m)
    ensures c in cons.offRampNext && 1 <= cons.offRampNext[c] <= m
  {
    OffRampVotes(cfg, prev, round, c);
    OffRampPool(round, c, OffRampBallots(round.aos));
    AgreedOffRampIsBracketed(cfg, prev, round, cons, c);
    AgreedOffRampIsPositive(cfg, prev, round, cons, c);
  }

  /** An honest on-ramp number is at or below the agreed one. */
  lemma OnRampNotBelow(round: Round, c: ChainSelector, f: nat, m: SeqNum, bs: seq<Ballot<SeqNum>>)
    requires bs == OnRampBallots(round.aos) && OneVoteEach(bs) && |Speakers(bs, c) * round.faulty| <= f
    requires |Pooled(bs, c)| > f && HonestMaxAtLeast(round, c, m)
    ensures Sort(Pooled(bs, c))[f] >= m
  {
    HonestBounds(bs, c, round.faulty, f, f);
    var i, k :| HonestVote(bs, c, round.faulty, i, k) && bs[i].entries[k].1 <= Sort(Pooled(bs, c))[f];
    assert HonestMax(round, c, i, k);
  }

  lemma OnRampAgreed(cfg: Config, aos: seq<AttributedObservation>, cons: ConsensusObservation, c: ChainSelector)
    requires IsConsensus(cfg, aos, cons) && cfg.dest in cons.fChain && c in cons.fChain && cons.fChain[c] > 0
    requires |Pooled(OnRampBallots(aos), c)| >= 2 * cons.fChain[c] + 1
    ensures c in cons.onRampMax && cons.onRampMax[c] == Sort(Pooled(OnRampBallots(aos), c))[cons.fChain[c]]
  {
  }

  lemma HonestMaxAgreed(cfg: Config, prev: Outcome, round: Round, cons: ConsensusObservation, c: ChainSelector,
                        m: SeqNum)
    requires Tolerable(cfg, prev, round) && IsConsensus(cfg, round.aos, cons) && cfg.dest in cons.fChain
    requires c in cons.fChain && cons.fChain[c] > 0 && |OnRampReaders(round, c)| >= 2 * cons.fChain[c] + 1
    requires HonestMaxAtLeast(round, c, m)
    ensures c in cons.onRampMax && cons.onRampMax[c] >= m
  {
    OnRampFaults(cfg, prev, round, c, cons.fChain);
    OnRampPool(round, c, OnRampBallots(round.aos));
    OnRampAgreed(cfg, round.aos, cons, c);
    OnRampNotBelow(round, c, cons.fChain[c], m, OnRampBallots(round.aos));
  }

  /** Progress: whoever lies within the bounds, a chain that enough oracles report on is selected if the
      honest ones agree that it has a new message, and its range starts no later than there. */
  lemma NewIsSelected(cfg: Config, prev: Outcome, round: Round, out: Outcome, fChain: map<ChainSelector, nat>,
                      c: ChainSelector, m: SeqNum)
    requires cfg.Valid() && Tolerable(cfg, prev, round) && Idle(prev) && Step(cfg, prev, round.aos, out)
    requires EnoughReaders(cfg, round, fChain, c) && HonestNextAtMost(round, c, m) && HonestMaxAtLeast(round, c, m)
    ensures out.kind == ReportIntervalsSelected
    ensures exists r :: r in out.ranges && r.chain == c && r.range.start <= m
  {
    var cons := StepOnAgreedF(cfg, prev, round, out, fChain);
    HonestNextAgreed(cfg, prev, round, cons, c, m);
    HonestMaxAgreed(cfg, prev, round, cons, c, m);
    NewIsInOutcome(cfg, prev, cons, out, c);
  }

  lemma StepOnAgreedF(cfg: Config, prev: Outcome, round: Round, out: Outcome, fChain: map<ChainSelector, nat>)
    returns (cons: ConsensusObservation)
    requires Step(cfg, prev, round.aos, out) && IsFChain(cfg, round.aos, fChain) && cfg.dest in fChain
    ensures IsConsensus(cfg, round.aos, cons) && cons.fChain == fChain && StepOn(cfg, prev, cons, out)
  {
    cons :| IsConsensus(cfg, round.aos, cons)
            && if cfg.dest in cons.fChain then StepOn(cfg, prev, cons, out) else out == OfKind(Unset);
    AgreedF(cfg, round.aos, cons, fChain);
  }

  lemma NewIsInOutcome(cfg: Config, prev: Outcome, cons: ConsensusObservation, out: Outcome, c: ChainSelector)
    requires cfg.Valid() && Idle(prev) && StepOn(cfg, prev, cons, out)
    requires NewMessages(cons, c) && cons.offRampNext[c] >= 1
    ensures out.kind == ReportIntervalsSelected
    ensures exists r :: r in out.ranges && r.chain == c && r.range.start == cons.offRampNext[c]
  {
    var r := ChainRange(c, NewRange(cons, cfg.maxTreeSize, c));
    LimitedEnd(SeqNumRange(cons.offRampNext[c], cons.onRampMax[c]), cfg.maxTreeSize);
    assert r in out.ranges;
  }

  /** Enough oracles report on the chain, and all honest ones see its off-ramp number above the recorded one. */
  ghost predicate HonestMoved(cfg: Config, round: Round, fChain: map<ChainSelector, nat>, s: SeqNumChain)
    requires cfg.dest in fChain
  {
    && |OffRampReaders(round, s.chain)| >= 2 * fChain[cfg.dest] + 1
    && forall i, k :: HonestRead(round, s.chain, i, k) ==> round.aos[i].obs.offRampNext[k].seqNum > s.seqNum
  }

  lemma OffRampAgreed(cfg: Config, aos: seq<AttributedObservation>, cons: ConsensusObservation, c: ChainSelector)
    requires IsConsensus(cfg, aos, cons) && cfg.dest in cons.fChain
    requires |Pooled(OffRampBallots(aos), c)| >= 2 * cons.fChain[cfg.dest] + 1
    ensures c in cons.offRampNext
  {
  }

  lemma HonestMovedOn(cfg: Config, prev: Outcome, round: Round, cons: ConsensusObservation, r: nat)
    requires Tolerable(cfg, prev, round) && IsConsensus(cfg, round.aos, cons) && cfg.dest in cons.fChain
    requires r < |prev.offRampNext| && HonestMoved(cfg, round, cons.fChain, prev.offRampNext[r])
    ensures MovedOn(prev, cons, r)
  {
    var c := prev.offRampNext[r].chain;
    OffRampVotes(cfg, prev, round, c);
    OffRampPool(round, c, OffRampBallots(round.aos));
    OffRampAgreed(cfg, round.aos, cons, c);
    AgreedOffRampIsBracketed(cfg, prev, round, cons, c);
  }

  /** They see it past a number that was recorded for chain c. */
  ghost predicate ChainSeenPast(cfg: Config, prev: Outcome, round: Round, fChain: map<ChainSelector, nat>,
                                c: ChainSelector)
    requires cfg.dest in fChain
  {
    exists r :: 0 <= r < |prev.offRampNext| && prev.offRampNext[r].chain == c
                && HonestMoved(cfg, round, fChain, prev.offRampNext[r])
  }

  lemma SeenPastIsMoved(cfg: Config, prev: Outcome, round: Round, cons: ConsensusObservation, c: ChainSelector)
    requires Tolerable(cfg, prev, round) && IsConsensus(cfg, round.aos, cons) && cfg.dest in cons.fChain
    requires ChainSeenPast(cfg, prev, round, cons.fChain, c)
    ensures ChainMoved(prev, cons, c)
  {
    var r :| 0 <= r < |prev.offRampNext| && prev.offRampNext[r].chain == c
             && HonestMoved(cfg, round, cons.fChain, prev.offRampNext[r]);
    HonestMovedOn(cfg, prev, round, cons, r);
  }

  /** Progress: once the honest oracles see the chain of every pending root past the recorded number, the
      report counts as transmitted. */
  lemma MovedIsNoticed(cfg: Config, prev: Outcome, round: Round, out: Outcome, fChain: map<ChainSelector, nat>)
    requires Tolerable(cfg, prev, round) && Pending(prev) && Step(cfg, prev, round.aos, out)
    requires IsFChain(cfg, round.aos, fChain) && cfg.dest in fChain
    requires forall i :: 0 <= i < |prev.roots| ==> ChainSeenPast(cfg, prev, round, fChain, prev.roots[i].chain)
    ensures out.kind == ReportTransmitted
  {
    var cons := StepOnAgreedF(cfg, prev, round, out, fChain);
    forall i | 0 <= i < |prev.roots|
      ensures ChainMoved(prev, cons, prev.roots[i].chain)
    {
      SeenPastIsMoved(cfg, prev, round, cons, prev.roots[i].chain);
    }
    MovedIsOnChain(cfg.multipleReports, prev, cons);
    WaitedExactly(cfg, prev, cons, out);
  }

  lemma MovedIsOnChain(several: bool, prev: Outcome, cons: ConsensusObservation)
    requires forall i :: 0 <= i < |prev.roots| ==> ChainMoved(prev, cons, prev.roots[i].chain)
    ensures OnChain(several, prev, cons)
  {
    if prev.roots != [] {
      assert ChainMoved(prev, cons, prev.roots[0].chain);
    }
  }

  // ---------- reporting roots ----------

  /** The oracles that report exactly this root. */
  ghost function RootReporters(round: Round, root: MerkleRootChain): set<OracleId> {
    set i | 0 <= i < |round.aos| && root in round.aos[i].obs.merkleRoots :: round.aos[i].oracle
  }

  /** Honest oracles report this root for its chain or none. */
  ghost predicate HonestRootIs(round: Round, root: MerkleRootChain) {
    forall i, k :: 0 <= i < |round.aos| && round.aos[i].oracle !in round.faulty
                   && 0 <= k < |round.aos[i].obs.merkleRoots| && round.aos[i].obs.merkleRoots[k].chain == root.chain ==>
      round.aos[i].obs.merkleRoots[k] == root
  }

  lemma ReportersVote(round: Round, root: MerkleRootChain, bs: seq<Ballot<MerkleRootChain>>)
    requires bs == RootBallots(round.aos)
    ensures RootReporters(round, root) <= VotersFor(bs, root.chain, root)
  {
    forall o | o in RootReporters(round, root)
      ensures o in VotersFor(bs, root.chain, root)
    {
      var i :| 0 <= i < |round.aos| && root in round.aos[i].obs.merkleRoots && round.aos[i].oracle == o;
      var k :| 0 <= k < |round.aos[i].obs.merkleRoots| && round.aos[i].obs.merkleRoots[k] == root;
      assert bs[i].entries[k] == (root.chain, root);
    }
  }

  lemma ReportedWins(round: Round, root: MerkleRootChain, th: nat, bs: seq<Ballot<MerkleRootChain>>)
    requires bs == RootBallots(round.aos) && OneVoteEach(bs) && 0 < th <= |RootReporters(round, root)|
    ensures Winner(Pooled(bs, root.chain), th, root)
  {
    ReportersVote(round, root, bs);
    SubsetSize(RootReporters(round, root), VotersFor(bs, root.chain, root));
    VotedWins(bs, root.chain, th, root);
  }

  lemma OnlyHonestRootWins(round: Round, root: MerkleRootChain, f: nat, v: MerkleRootChain,
                           bs: seq<Ballot<MerkleRootChain>>)
    requires bs == RootBallots(round.aos) && OneVoteEach(bs) && |Speakers(bs, root.chain) * round.faulty| <= f
    requires HonestRootIs(round, root) && Winner(Pooled(bs, root.chain), TwoFPlus1(f), v)
    ensures v == root
  {
    HonestWinner(bs, root.chain, TwoFPlus1(f), v, round.faulty, f);
    assert |VotersFor(bs, root.chain, v) - round.faulty| > 0;
    var o :| o in VotersFor(bs, root.chain, v) - round.faulty;
    VotedIsHonestRoot(round, root, v, o, bs);
  }

  lemma VotedIsHonestRoot(round: Round, root: MerkleRootChain, v: MerkleRootChain, o: OracleId,
                          bs: seq<Ballot<MerkleRootChain>>)
    requires bs == RootBallots(round.aos) && HonestRootIs(round, root)
    requires o in VotersFor(bs, root.chain, v) - round.faulty
    ensures v == root
  {
    var i, k :| 0 <= i < |bs| && 0 <= k < |bs[i].entries| && bs[i].entries[k] == (root.chain, v) && bs[i].oracle == o;
    assert round.aos[i].obs.merkleRoots[k] == v && v.chain == root.chain;
  }

  lemma ReportedIsAgreed(cfg: Config, prev: Outcome, round: Round, cons: ConsensusObservation, root: MerkleRootChain)
    requires Tolerable(cfg, prev, round) && IsConsensus(cfg, round.aos, cons) && cfg.dest in cons.fChain
    requires root.chain in cons.fChain && |RootReporters(round, root)| >= 2 * cons.fChain[root.chain] + 1
    requires HonestRootIs(round, root)
    ensures root.chain in cons.merkleRoots && cons.merkleRoots[root.chain] == root
  {
    var c, f, bs := root.chain, cons.fChain[root.chain], RootBallots(round.aos);
    RootFaults(cfg, prev, round, c, cons.fChain);
    ReportedWins(round, root, TwoFPlus1(f), bs);
    forall v | Winner(Pooled(bs, c), TwoFPlus1(f), v)
      ensures v == root
    {
      OnlyHonestRootWins(round, root, f, v, bs);
    }
    assert Agreed(Pooled(bs, c), TwoFPlus1(f), root);
    AgreedIsInCons(cfg, round.aos, cons, root);
  }

  lemma AgreedIsInCons(cfg: Config, aos: seq<AttributedObservation>, cons: ConsensusObservation, root: MerkleRootChain)
    requires IsConsensus(cfg, aos, cons) && cfg.dest in cons.fChain && root.chain in cons.fChain
    requires Agreed(Pooled(RootBallots(aos), root.chain), TwoFPlus1(cons.fChain[root.chain]), root)
    ensures root.chain in cons.merkleRoots && cons.merkleRoots[root.chain] == root
  {
    assert TwoFPlus1PerChain(cons.fChain).Get(root.chain) == Some(TwoFPlus1(cons.fChain[root.chain]));
  }

  /** Progress: a root that enough oracles report is in the report if the honest ones agree on it. */
  lemma RootIsReported(cfg: Config, prev: Outcome, round: Round, out: Outcome, fChain: map<ChainSelector, nat>,
                       root: MerkleRootChain)
    requires Tolerable(cfg, prev, round) && prev.kind == ReportIntervalsSelected && Step(cfg, prev, round.aos, out)
    requires IsFChain(cfg, round.aos, fChain) && cfg.dest in fChain && root.chain in fChain
    requires |RootReporters(round, root)| >= 2 * fChain[root.chain] + 1 && HonestRootIs(round, root)
    ensures out.kind == ReportGenerated && root in out.roots
  {
    var cons := StepOnAgreedF(cfg, prev, round, out, fChain);
    ReportedIsAgreed(cfg, prev, round, cons, root);
    assert root.chain in cons.merkleRoots.Keys;
  }
}
