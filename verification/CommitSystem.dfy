/** The merkle-root processor and the off-ramp together: what becomes of the reports of a run. */
module CommitSystem {
  import opened CcipTypes
  import opened MerkleRoot
  import opened MerkleRootObservation
  import opened MerkleRootSafety
  import opened MerkleRootRuns
  import opened CommitReports

  /** A report with some of the roots of an outcome, in their order: all of them, or the ones that
      fit where reports are split. */
  ghost predicate ReportOf(out: Outcome, report: Report) {
    && report.blessed == []
    && RootsAscend(report.unblessed)
    && forall i :: 0 <= i < |report.unblessed| ==> report.unblessed[i] in out.roots
  }

  /** The off-ramp still expects, for every root of the report, the number recorded when its range
      was selected. */
  ghost predicate Unmoved(out: Outcome, report: Report, offRamp: OffRamp) {
    forall i :: 0 <= i < |report.unblessed| ==>
      report.unblessed[i].chain in offRamp
      && SeqNumChain(report.unblessed[i].chain, offRamp[report.unblessed[i].chain]) in out.offRampNext
  }

  lemma ObservedIsValid(obs: Observation, supported: set<ChainSelector>, dest: ChainSelector, root: MerkleRootChain)
    requires ValidObservation(obs, supported, dest) && root in obs.merkleRoots
    ensures ValidRoot(root, supported)
  {
    var k :| 0 <= k < |obs.merkleRoots| && obs.merkleRoots[k] == root;
    assert ValidRoot(obs.merkleRoots[k], supported);
  }

  lemma WitnessIsValid(cfg: Config, prev: Outcome, round: Round, root: MerkleRootChain)
    requires Tolerable(cfg, prev, round)
    requires HonestWitnesses(round, root) != {}
    ensures root.root != EMPTY_BYTES32 && root.range.start <= root.range.end
  {
    var o :| o in HonestWitnesses(round, root);
    var i :| 0 <= i < |round.aos| && round.aos[i].oracle !in round.faulty && root in round.aos[i].obs.merkleRoots;
    ObservedIsValid(round.aos[i].obs, round.supports[round.aos[i].oracle], cfg.dest, root);
  }

  lemma PendingRootsWellFormed(cfg: Config, rounds: seq<Round>, outs: seq<Outcome>, k: nat, root: MerkleRootChain)
    requires cfg.Valid() && IsRun(cfg, rounds, outs)
    requires k < |outs| && Pending(outs[k]) && root in outs[k].roots
    ensures WellFormedRoot(root)
  {
    PendingRootsMatchSelection(cfg, rounds, outs, k);
    var s := Selection(outs, k);
    assert GoodRoot(outs[s], rounds[s], root);
    assert HonestWitnesses(rounds[s], root) != {};
    WitnessIsValid(cfg, outs[s], rounds[s], root);
  }

  lemma OneNumberPerChain(nexts: seq<SeqNumChain>, c: ChainSelector, a: SeqNum, b: SeqNum)
    requires SeqNumsAscend(nexts)
    requires SeqNumChain(c, a) in nexts && SeqNumChain(c, b) in nexts
    ensures a == b
  {
  }

  lemma PendingRootStart(cfg: Config, rounds: seq<Round>, outs: seq<Outcome>, k: nat, root: MerkleRootChain,
                         next: SeqNum)
    requires cfg.Valid() && IsRun(cfg, rounds, outs)
    requires k < |outs| && Pending(outs[k]) && root in outs[k].roots
    ensures root.range.start == next <==> SeqNumChain(root.chain, next) in outs[k].offRampNext
  {
    PendingRootsMatchSelection(cfg, rounds, outs, k);
    assert RootFits(cfg, outs[k], root);
    assert SeqNumsAscend(outs[Selection(outs, k)].offRampNext);
    if SeqNumChain(root.chain, next) in outs[k].offRampNext {
      OneNumberPerChain(outs[k].offRampNext, root.chain, root.range.start, next);
    }
  }

  /** The root starts at the off-ramp's number for its chain exactly if that is the recorded number. */
  ghost predicate StartsAtRecorded(o: Outcome, root: MerkleRootChain, offRamp: OffRamp) {
    root.chain in offRamp ==>
      (root.range.start == offRamp[root.chain] <==> SeqNumChain(root.chain, offRamp[root.chain]) in o.offRampNext)
  }

  lemma OwnRoot(cfg: Config, rounds: seq<Round>, outs: seq<Outcome>, k: nat, root: MerkleRootChain, offRamp: OffRamp)
    requires cfg.Valid() && IsRun(cfg, rounds, outs)
    requires k < |outs| && Pending(outs[k]) && root in outs[k].roots
    ensures WellFormedRoot(root) && StartsAtRecorded(outs[k], root, offRamp)
  {
    PendingRootsWellFormed(cfg, rounds, outs, k, root);
    if root.chain in offRamp {
      PendingRootStart(cfg, rounds, outs, k, root, offRamp[root.chain]);
    }
  }

  /** A report made of roots of a run's pending outcome passes the acceptance checks exactly if
      the other answers are favourable and the off-ramp has not moved past the recorded numbers. */
  lemma OwnReportsAccepted(cfg: Config, rounds: seq<Round>, outs: seq<Outcome>, k: nat, s: Submission, offRamp: OffRamp)
    requires cfg.Valid() && IsRun(cfg, rounds, outs)
    requires k < |outs| && Pending(outs[k])
    requires s.report.Some? && ReportOf(outs[k], s.report.value) && s.report.value.unblessed != []
    ensures Acceptable(s, offRamp) <==>
            && s.answers.Favourable() && s.answers.latestPriceSeqNr.Some? && s.answers.nextSeqNumsRead
            && Unmoved(outs[k], s.report.value, offRamp)
  {
    var roots := s.report.value.unblessed;
    forall i | 0 <= i < |roots|
      ensures WellFormedRoot(roots[i]) && StartsAtRecorded(outs[k], roots[i], offRamp)
    {
      OwnRoot(cfg, rounds, outs, k, roots[i], offRamp);
    }
    AcceptedUnlessMoved(s, offRamp, roots);
    UnmovedIsNext(outs[k], s.report.value, offRamp, roots);
  }

  lemma UnmovedIsNext(o: Outcome, r: Report, offRamp: OffRamp, roots: seq<MerkleRootChain>)
    requires ReportOf(o, r) && roots == r.unblessed
    requires forall i :: 0 <= i < |roots| ==> StartsAtRecorded(o, roots[i], offRamp)
    ensures StartsAtNext(roots, offRamp) <==> Unmoved(o, r, offRamp)
  {
  }

  /** Of well-formed roots by chain, acceptance depends on the answers and on where they start. */
  lemma AcceptedUnlessMoved(s: Submission, offRamp: OffRamp, roots: seq<MerkleRootChain>)
    requires s.report == Some(Report([], roots)) && roots != [] && RootsAscend(roots) && WellFormed(roots)
    ensures Acceptable(s, offRamp) <==>
            && s.answers.Favourable() && s.answers.latestPriceSeqNr.Some? && s.answers.nextSeqNumsRead
            && StartsAtNext(roots, offRamp)
  {
    assert s.Roots() == roots;
  }

  /** A report is committed at most once: once applied, no report of the same outcome that shares a
      chain with it is acceptable any more. */
  lemma NotCommittedTwice(roots: seq<MerkleRootChain>, again: Submission, offRamp: OffRamp, i: nat, j: nat)
    requires WellFormed(roots) && Applicable(roots) && DistinctRootChains(roots) && StartsAtNext(roots, offRamp)
    requires i < |roots| && j < |again.Roots()|
    requires again.Roots()[j].chain == roots[i].chain
    requires again.Roots()[j].range.start == roots[i].range.start
    ensures !Acceptable(again, Apply(roots, offRamp))
  {
    var c := roots[i].chain;
    OneRangePerChain(roots, offRamp, c);
    TilesCoverOnce(RangesOf(roots, c), offRamp[c], Apply(roots, offRamp)[c], offRamp[c]);
    assert RangesOf(roots, c) != [];
    assert Apply(roots, offRamp)[c] > offRamp[c];
  }
}
