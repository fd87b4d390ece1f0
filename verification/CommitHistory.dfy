/** Runs of the merkle-root processor beside the history of the off-ramp they read: a report that
    counts as transmitted has been. */
module CommitHistory {
  import opened CcipTypes
  import opened MerkleRoot
  import opened MerkleRootSafety
  import opened MerkleRootRuns
  import opened CommitReports
  import opened CommitSystem

  /** At some time up to t the off-ramp expected number s of chain c. */
  ghost predicate WasNext(history: seq<Submission>, initial: OffRamp, t: nat, c: ChainSelector, s: SeqNum)
    requires t <= |history|
  {
    exists u :: 0 <= u <= t && c in After(history[..u], initial) && After(history[..u], initial)[c] == s
  }

  /** In round k, which comes after the first at[k] submissions, honest readers of the destination see
      the off-ramp as it is or as it was earlier. */
  ghost predicate HonestReads(rounds: seq<Round>, history: seq<Submission>, initial: OffRamp, at: seq<nat>) {
    && |at| == |rounds|
    && (forall k :: 0 <= k < |at| ==> at[k] <= |history|)
    && forall k, c, i, n :: 0 <= k < |rounds| && HonestRead(rounds[k], c, i, n) ==>
         WasNext(history, initial, at[k], c, rounds[k].aos[i].obs.offRampNext[n].seqNum)
  }

  // ---------- counters only grow ----------

  lemma {:induction false} ApplyKeys(roots: seq<MerkleRootChain>, offRamp: OffRamp)
    requires Applicable(roots) && StartsAtNext(roots, offRamp)
    ensures Apply(roots, offRamp).Keys == offRamp.Keys
  {
    if roots != [] {
      ApplyKeys(roots[..|roots| - 1], offRamp);
      assert roots[|roots| - 1].chain in offRamp;
    }
  }

  lemma {:induction false} AfterKeys(history: seq<Submission>, initial: OffRamp)
    ensures After(history, initial).Keys == initial.Keys
  {
    if history != [] {
      var front, last := history[..|history| - 1], history[|history| - 1];
      AfterKeys(front, initial);
      if Applied(last, After(front, initial)) && last.Roots() != [] {
        ApplyKeys(last.Roots(), After(front, initial));
      }
    }
  }

  /** What comes after u submissions is a history of its own, from the off-ramp as it then is. */
  lemma {:induction false} AfterSplit(history: seq<Submission>, initial: OffRamp, u: nat, t: nat)
    requires u <= t <= |history|
    ensures After(history[..t], initial) == After(history[u..t], After(history[..u], initial))
    decreases t
  {
    if u < t {
      AfterSplit(history, initial, u, t - 1);
      assert history[..t][..t - 1] == history[..t - 1];
      assert history[u..t][..t - u - 1] == history[u..t - 1];
      assert history[u..t][t - u - 1] == history[..t][t - 1];
    } else {
      assert history[u..t] == [];
    }
  }

  lemma CountersGrow(history: seq<Submission>, initial: OffRamp, u: nat, t: nat, c: ChainSelector)
    requires u <= t <= |history| && c in initial
    ensures c in After(history[..u], initial) && c in After(history[..t], initial)
    ensures After(history[..u], initial)[c] <= After(history[..t], initial)[c]
  {
    var earlier := After(history[..u], initial);
    AfterKeys(history[..u], initial);
    AfterSplit(history, initial, u, t);
    CommittedRangesTile(history[u..t], earlier, c);
    TilesCoverOnce(Committed(history[u..t], earlier, c), earlier[c], After(history[u..t], earlier)[c], 0);
  }

  /** Whatever was next lies between the initial and the current counter. */
  lemma WasNextIsBetween(history: seq<Submission>, initial: OffRamp, t: nat, c: ChainSelector, s: SeqNum)
    requires t <= |history| && WasNext(history, initial, t, c, s)
    ensures c in initial && c in After(history[..t], initial)
    ensures initial[c] <= s <= After(history[..t], initial)[c]
  {
    var u :| 0 <= u <= t && c in After(history[..u], initial) && After(history[..u], initial)[c] == s;
    AfterKeys(history[..u], initial);
    CountersGrow(history, initial, u, t, c);
    CountersGrow(history, initial, 0, u, c);
    assert history[..0] == [];
  }

  // ---------- what honest reads tell ----------

  lemma ReadBelow(rounds: seq<Round>, history: seq<Submission>, initial: OffRamp, at: seq<nat>, k: nat,
                  c: ChainSelector, s: SeqNum)
    requires HonestReads(rounds, history, initial, at) && k < |rounds| && ReadAtMost(rounds[k], c, s)
    ensures c in initial && initial[c] <= s
  {
    var i, n :| HonestRead(rounds[k], c, i, n) && rounds[k].aos[i].obs.offRampNext[n].seqNum <= s;
    WasNextIsBetween(history, initial, at[k], c, rounds[k].aos[i].obs.offRampNext[n].seqNum);
  }

  lemma ReadPast(rounds: seq<Round>, history: seq<Submission>, initial: OffRamp, at: seq<nat>, k: nat,
                 c: ChainSelector, s: SeqNum)
    requires HonestReads(rounds, history, initial, at) && k < |rounds| && SeenPast(rounds[k], c, s)
    ensures c in After(history[..at[k]], initial) && s < After(history[..at[k]], initial)[c]
  {
    var i, n :| HonestRead(rounds[k], c, i, n) && rounds[k].aos[i].obs.offRampNext[n].seqNum > s;
    WasNextIsBetween(history, initial, at[k], c, rounds[k].aos[i].obs.offRampNext[n].seqNum);
  }

  /** A pending root starts at or after the counter its chain began with. */
  lemma PendingStartIsCounted(cfg: Config, rounds: seq<Round>, outs: seq<Outcome>, history: seq<Submission>,
                              initial: OffRamp, at: seq<nat>,
                              k: nat, root: MerkleRootChain)
    requires cfg.Valid() && IsRun(cfg, rounds, outs) && HonestReads(rounds, history, initial, at)
    requires k < |outs| && Pending(outs[k]) && root in outs[k].roots
    ensures root.chain in initial && initial[root.chain] <= root.range.start
  {
    PendingRootsMatchSelection(cfg, rounds, outs, k);
    var s := Selection(outs, k);
    MatchedStartIsRead(cfg, rounds[s - 1], outs[s], rounds[s], outs[k], root);
    ReadBelow(rounds, history, initial, at, s - 1, root.chain, root.range.start);
  }

  lemma MatchedStartIsRead(cfg: Config, selecting: Round, selection: Outcome, building: Round, o: Outcome,
                           root: MerkleRootChain)
    requires Matches(cfg, selecting, selection, building, o) && root in o.roots
    ensures ReadAtMost(selecting, root.chain, root.range.start)
  {
    assert GoodRoot(selection, building, root);
    assert GoodRange(cfg, selecting, selection, ChainRange(root.chain, root.range));
  }

  /** When a pending root's chain counts as transmitted, the off-ramp has moved past its start. */
  lemma TransmittedStartIsPassed(cfg: Config, rounds: seq<Round>, outs: seq<Outcome>, history: seq<Submission>,
                                 initial: OffRamp, at: seq<nat>,
                                 k: nat, j: nat)
    requires cfg.Valid() && IsRun(cfg, rounds, outs) && HonestReads(rounds, history, initial, at)
    requires k < |rounds| && Pending(outs[k]) && cfg.multipleReports && j < |outs[k].roots|
    requires outs[k + 1].kind == ReportTransmitted
    ensures var root := outs[k].roots[j];
            root.chain in After(history[..at[k]], initial)
              && root.range.start < After(history[..at[k]], initial)[root.chain]
  {
    var root := outs[k].roots[j];
    RunStep(cfg, rounds, outs, k);
    TransmittedMeansAdvanced(cfg, outs[k], rounds[k], outs[k + 1], j);
    var r :| 0 <= r < |outs[k].offRampNext| && outs[k].offRampNext[r].chain == root.chain
             && SeenPast(rounds[k], outs[k].offRampNext[r].chain, outs[k].offRampNext[r].seqNum);
    assert outs[k].offRampNext[r] == SeqNumChain(root.chain, outs[k].offRampNext[r].seqNum);
    PendingRootStart(cfg, rounds, outs, k, root, outs[k].offRampNext[r].seqNum);
    ReadPast(rounds, history, initial, at, k, root.chain, root.range.start);
  }

  /** With several reports, ReportTransmitted is true to its name: whoever lies within the bounds, by
      then the first message of every pending root has been committed, and just once. */
  lemma TransmittedMeansCommitted(cfg: Config, rounds: seq<Round>, outs: seq<Outcome>, history: seq<Submission>,
                                  initial: OffRamp, at: seq<nat>,
                                  k: nat, j: nat, committed: seq<SeqNumRange>)
    requires cfg.Valid() && IsRun(cfg, rounds, outs) && HonestReads(rounds, history, initial, at)
    requires k < |rounds| && Pending(outs[k]) && cfg.multipleReports && j < |outs[k].roots|
    requires outs[k + 1].kind == ReportTransmitted
    requires committed == Committed(history[..at[k]], initial, outs[k].roots[j].chain)
    ensures exists i :: Holds(committed, i, outs[k].roots[j].range.start)
    ensures var n := outs[k].roots[j].range.start;
            forall i, i' :: Holds(committed, i, n) && Holds(committed, i', n) ==> i == i'
  {
    var root := outs[k].roots[j];
    PendingStartIsCounted(cfg, rounds, outs, history, initial, at, k, root);
    TransmittedStartIsPassed(cfg, rounds, outs, history, initial, at, k, j);
    CommittedExactlyOnce(history[..at[k]], initial, root.chain, root.range.start, committed,
                         After(history[..at[k]], initial));
  }
}
