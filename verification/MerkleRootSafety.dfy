/** Whole runs of the merkle-root processor under a bound on the faulty oracles. */
module MerkleRootSafety {
  import opened CcipTypes
  import opened Sorting
  import opened Votes
  import opened Consensus
  import opened Agreement
  import opened MerkleRoot
  import opened MerkleRootObservation

  /** One round: the observations, which oracles may lie, who may read which chain, and the f that
      the home chain configures per chain. */
  datatype Round = Round(
    aos: seq<AttributedObservation>,
    faulty: set<OracleId>,
    supports: map<OracleId, set<ChainSelector>>,
    homeF: map<ChainSelector, nat>)

  ghost function Observers(aos: seq<AttributedObservation>): set<OracleId> {
    set i | 0 <= i < |aos| :: aos[i].oracle
  }

  /** The faulty oracles that may read chain c. */
  ghost function FaultyReaders(round: Round, c: ChainSelector): set<OracleId> {
    set o | o in round.supports && o in round.faulty && c in round.supports[o]
  }

  /** The fault model: one validated observation per oracle, at most F faulty observers, at most
      homeF[c] faulty readers of chain c, and everyone else follows the protocol. */
  ghost predicate Tolerable(cfg: Config, prev: Outcome, round: Round) {
    && (forall i, j :: 0 <= i < j < |round.aos| ==> round.aos[i].oracle != round.aos[j].oracle)
    && (forall i :: 0 <= i < |round.aos| ==>
          round.aos[i].oracle in round.supports
          && ValidObservation(round.aos[i].obs, round.supports[round.aos[i].oracle], cfg.dest))
    && |Observers(round.aos) * round.faulty| <= cfg.f
    && (forall c :: c in round.homeF ==> |FaultyReaders(round, c)| <= round.homeF[c])
    && (forall i :: 0 <= i < |round.aos| && round.aos[i].oracle !in round.faulty ==>
          Honest(prev, round.homeF, round.aos[i].obs))
  }

  // ---------- every ballot is one vote per chain ----------

  lemma FChainVotes(cfg: Config, prev: Outcome, round: Round)
    requires Tolerable(cfg, prev, round)
    ensures OneVoteEach(FChainBallots(round.aos))
  {
    forall i | 0 <= i < |round.aos|
      ensures DistinctChains(FChainBallots(round.aos)[i].entries)
    {
      MapEntriesExact(round.aos[i].obs.fChain);
    }
  }

  lemma RootVotes(cfg: Config, prev: Outcome, round: Round, c: ChainSelector)
    requires Tolerable(cfg, prev, round)
    ensures OneVoteEach(RootBallots(round.aos))
    ensures Speakers(RootBallots(round.aos), c) * round.faulty <= FaultyReaders(round, c)
  {
    var bs := RootBallots(round.aos);
    forall i | 0 <= i < |bs|
      ensures DistinctChains(bs[i].entries)
      ensures forall k :: 0 <= k < |bs[i].entries| ==> bs[i].entries[k].0 in round.supports[round.aos[i].oracle]
    {
      assert ValidRoots(round.aos[i].obs.merkleRoots, round.supports[round.aos[i].oracle]);
    }
  }

  lemma OffRampVotes(cfg: Config, prev: Outcome, round: Round, c: ChainSelector)
    requires Tolerable(cfg, prev, round)
    ensures OneVoteEach(OffRampBallots(round.aos))
    ensures Speakers(OffRampBallots(round.aos), c) * round.faulty <= FaultyReaders(round, cfg.dest)
  {
    var bs := OffRampBallots(round.aos);
    forall i | 0 <= i < |bs|
      ensures DistinctChains(bs[i].entries)
      ensures bs[i].entries != [] ==> cfg.dest in round.supports[round.aos[i].oracle]
    {
      assert ValidOffRampNext(round.aos[i].obs.offRampNext, cfg.dest in round.supports[round.aos[i].oracle]);
    }
  }

  // ---------- one round ----------

  lemma HonestFVote(cfg: Config, prev: Outcome, round: Round, c: ChainSelector, v: nat, o: OracleId)
    requires Tolerable(cfg, prev, round)
    requires o in VotersFor(FChainBallots(round.aos), c, v) - round.faulty
    ensures c in round.homeF && v == round.homeF[c]
  {
    var bs := FChainBallots(round.aos);
    var i, k :| 0 <= i < |bs| && 0 <= k < |bs[i].entries| && bs[i].entries[k] == (c, v) && bs[i].oracle == o;
    EntryOfMap(round.aos[i].obs.fChain, bs[i].entries, k, c, v);
    assert Honest(prev, round.homeF, round.aos[i].obs);
  }

  /** The agreed f of a chain is the one the home chain configures. */
  lemma AgreedFIsHomeF(cfg: Config, prev: Outcome, round: Round, fChain: map<ChainSelector, nat>, c: ChainSelector)
    requires Tolerable(cfg, prev, round)
    requires IsFChain(cfg, round.aos, fChain) && c in fChain
    ensures c in round.homeF && fChain[c] == round.homeF[c]
  {
    var bs := FChainBallots(round.aos);
    var v := fChain[c];
    FChainVotes(cfg, prev, round);
    SubsetSize(Speakers(bs, c) * round.faulty, Observers(round.aos) * round.faulty);
    HonestWinner(bs, c, TwoFPlus1(cfg.f), v, round.faulty, cfg.f);
    assert |VotersFor(bs, c, v) - round.faulty| > 0;
    var o :| o in VotersFor(bs, c, v) - round.faulty;
    HonestFVote(cfg, prev, round, c, v, o);
  }

  /** The honest oracles that observed exactly this root. */
  ghost function HonestWitnesses(round: Round, root: MerkleRootChain): set<OracleId> {
    set i | 0 <= i < |round.aos| && round.aos[i].oracle !in round.faulty && root in round.aos[i].obs.merkleRoots ::
      round.aos[i].oracle
  }

  /** The faulty readers of a chain do not outnumber its agreed f. */
  lemma RootFaults(cfg: Config, prev: Outcome, round: Round, c: ChainSelector, fChain: map<ChainSelector, nat>)
    requires Tolerable(cfg, prev, round)
    requires IsFChain(cfg, round.aos, fChain) && c in fChain
    ensures c in round.homeF && fChain[c] == round.homeF[c]
    ensures OneVoteEach(RootBallots(round.aos))
    ensures |Speakers(RootBallots(round.aos), c) * round.faulty| <= fChain[c]
  {
    AgreedFIsHomeF(cfg, prev, round, fChain, c);
    RootVotes(cfg, prev, round, c);
    SubsetSize(Speakers(RootBallots(round.aos), c) * round.faulty, FaultyReaders(round, c));
  }

  lemma WitnessesFromVotes(round: Round, c: ChainSelector, root: MerkleRootChain, f: nat)
    requires OneVoteEach(RootBallots(round.aos))
    requires |Speakers(RootBallots(round.aos), c) * round.faulty| <= f
    requires Winner(Pooled(RootBallots(round.aos), c), TwoFPlus1(f), root)
    ensures |HonestWitnesses(round, root)| > f
  {
    var bs := RootBallots(round.aos);
    HonestWinner(bs, c, TwoFPlus1(f), root, round.faulty, f);
    VotersAreWitnesses(round, c, root);
    SubsetSize(VotersFor(bs, c, root) - round.faulty, HonestWitnesses(round, root));
  }

  lemma AgreedRootVotes(cfg: Config, aos: seq<AttributedObservation>, cons: ConsensusObservation, c: ChainSelector)
    requires IsConsensus(cfg, aos, cons) && c in cons.merkleRoots
    ensures c in cons.fChain && Winner(Pooled(RootBallots(aos), c), TwoFPlus1(cons.fChain[c]), cons.merkleRoots[c])
  {
  }

  /** More than homeF[c] honest oracles stand behind an agreed root of chain c. */
  lemma AgreedRootIsWitnessed(cfg: Config, prev: Outcome, round: Round, cons: ConsensusObservation, c: ChainSelector)
    requires Tolerable(cfg, prev, round)
    requires IsConsensus(cfg, round.aos, cons) && c in cons.merkleRoots
    ensures c in round.homeF
    ensures |HonestWitnesses(round, cons.merkleRoots[c])| > round.homeF[c]
  {
    AgreedRootVotes(cfg, round.aos, cons, c);
    RootFaults(cfg, prev, round, c, cons.fChain);
    WitnessesFromVotes(round, c, cons.merkleRoots[c], round.homeF[c]);
  }

  lemma VotersAreWitnesses(round: Round, c: ChainSelector, root: MerkleRootChain)
    ensures VotersFor(RootBallots(round.aos), c, root) - round.faulty <= HonestWitnesses(round, root)
  {
    var bs := RootBallots(round.aos);
    forall o | o in VotersFor(bs, c, root) - round.faulty
      ensures o in HonestWitnesses(round, root)
    {
      var i, k :| 0 <= i < |bs| && 0 <= k < |bs[i].entries| && bs[i].entries[k] == (c, root) && bs[i].oracle == o;
      assert round.aos[i].obs.merkleRoots[k] == root;
    }
  }

  lemma WitnessRange(cfg: Config, prev: Outcome, round: Round, root: MerkleRootChain)
    requires Tolerable(cfg, prev, round) && NextState(prev) == BuildingReport
    requires HonestWitnesses(round, root) != {}
    ensures ChainRange(root.chain, root.range) in prev.ranges
  {
    var o :| o in HonestWitnesses(round, root);
    var i :| 0 <= i < |round.aos| && round.aos[i].oracle !in round.faulty && root in round.aos[i].obs.merkleRoots;
    assert Honest(prev, round.homeF, round.aos[i].obs);
  }

  /** Roots agreed while building a report cover exactly the selected range of their chain. */
  lemma AgreedRootHasSelectedRange(cfg: Config, prev: Outcome, round: Round, cons: ConsensusObservation,
                                   c: ChainSelector)
    requires Tolerable(cfg, prev, round) && NextState(prev) == BuildingReport
    requires IsConsensus(cfg, round.aos, cons) && c in cons.merkleRoots
    ensures ChainRange(c, cons.merkleRoots[c].range) in prev.ranges
  {
    AgreedRootIsWitnessed(cfg, prev, round, cons, c);
    RootsKeyedByChain(cfg, round.aos, cons, c);
    assert HonestWitnesses(round, cons.merkleRoots[c]) != {};
    WitnessRange(cfg, prev, round, cons.merkleRoots[c]);
  }

  /** The destination's faulty readers do not outnumber the f used for off-ramp numbers. */
  lemma OffRampFaults(cfg: Config, prev: Outcome, round: Round, c: ChainSelector, fChain: map<ChainSelector, nat>)
    requires Tolerable(cfg, prev, round)
    requires IsFChain(cfg, round.aos, fChain) && cfg.dest in fChain
    ensures OneVoteEach(OffRampBallots(round.aos))
    ensures |Speakers(OffRampBallots(round.aos), c) * round.faulty| <= fChain[cfg.dest]
  {
    AgreedFIsHomeF(cfg, prev, round, fChain, cfg.dest);
    OffRampVotes(cfg, prev, round, c);
    SubsetSize(Speakers(OffRampBallots(round.aos), c) * round.faulty, FaultyReaders(round, cfg.dest));
  }

  /** The k-th off-ramp number of observation i is for chain c and comes from an honest oracle. */
  ghost predicate HonestRead(round: Round, c: ChainSelector, i: int, k: int) {
    0 <= i < |round.aos| && round.aos[i].oracle !in round.faulty
    && 0 <= k < |round.aos[i].obs.offRampNext| && round.aos[i].obs.offRampNext[k].chain == c
  }

  lemma VoteIsRead(round: Round, c: ChainSelector, i: int, k: int)
    requires HonestVote(OffRampBallots(round.aos), c, round.faulty, i, k)
    ensures HonestRead(round, c, i, k)
    ensures round.aos[i].obs.offRampNext[k].seqNum == OffRampBallots(round.aos)[i].entries[k].1
  {
  }

  /** An honest destination reader saw a number of at most s for chain c. */
  ghost predicate ReadAtMost(round: Round, c: ChainSelector, s: SeqNum) {
    exists i, k :: HonestRead(round, c, i, k) && round.aos[i].obs.offRampNext[k].seqNum <= s
  }

  /** An honest destination reader saw a number of at least s for chain c. */
  ghost predicate ReadAtLeast(round: Round, c: ChainSelector, s: SeqNum) {
    exists i, k :: HonestRead(round, c, i, k) && round.aos[i].obs.offRampNext[k].seqNum >= s
  }

  lemma BracketFromVotes(round: Round, c: ChainSelector, f: nat, pick: SeqNum)
    requires OneVoteEach(OffRampBallots(round.aos))
    requires |Speakers(OffRampBallots(round.aos), c) * round.faulty| <= f
    requires |Pooled(OffRampBallots(round.aos), c)| >= 2 * f + 1
    requires pick == Sort(Pooled(OffRampBallots(round.aos), c))[f]
    ensures ReadAtMost(round, c, pick) && ReadAtLeast(round, c, pick)
  {
    var bs := OffRampBallots(round.aos);
    HonestBounds(bs, c, round.faulty, f, f);
    assert HonestAtMost(bs, c, round.faulty, pick) && HonestAtLeast(bs, c, round.faulty, pick);
    var i, k :| HonestVote(bs, c, round.faulty, i, k) && bs[i].entries[k].1 <= pick;
    VoteIsRead(round, c, i, k);
    var i', k' :| HonestVote(bs, c, round.faulty, i', k') && bs[i'].entries[k'].1 >= pick;
    VoteIsRead(round, c, i', k');
  }

  lemma AgreedOffRampVotes(cfg: Config, aos: seq<AttributedObservation>, cons: ConsensusObservation, c: ChainSelector)
    requires IsConsensus(cfg, aos, cons) && c in cons.offRampNext
    ensures cfg.dest in cons.fChain
    ensures |Pooled(OffRampBallots(aos), c)| >= 2 * cons.fChain[cfg.dest] + 1
    ensures cons.offRampNext[c] == Sort(Pooled(OffRampBallots(aos), c))[cons.fChain[cfg.dest]]
  {
  }

  /** An agreed off-ramp number lies between two numbers that honest destination readers observed. */
  lemma AgreedOffRampIsBracketed(cfg: Config, prev: Outcome, round: Round, cons: ConsensusObservation, c: ChainSelector)
    requires Tolerable(cfg, prev, round)
    requires IsConsensus(cfg, round.aos, cons) && c in cons.offRampNext
    ensures ReadAtMost(round, c, cons.offRampNext[c]) && ReadAtLeast(round, c, cons.offRampNext[c])
  {
    AgreedOffRampVotes(cfg, round.aos, cons, c);
    OffRampFaults(cfg, prev, round, c, cons.fChain);
    BracketFromVotes(round, c, cons.fChain[cfg.dest], cons.offRampNext[c]);
  }

  lemma ReadIsPositive(cfg: Config, prev: Outcome, round: Round, c: ChainSelector, i: int, k: int)
    requires Tolerable(cfg, prev, round) && HonestRead(round, c, i, k)
    ensures round.aos[i].obs.offRampNext[k].seqNum >= 1
  {
    assert ValidOffRampNext(round.aos[i].obs.offRampNext, cfg.dest in round.supports[round.aos[i].oracle]);
  }

  /** No agreed off-ramp number is zero. */
  lemma AgreedOffRampIsPositive(cfg: Config, prev: Outcome, round: Round, cons: ConsensusObservation, c: ChainSelector)
    requires Tolerable(cfg, prev, round)
    requires IsConsensus(cfg, round.aos, cons) && c in cons.offRampNext
    ensures cons.offRampNext[c] >= 1
  {
    AgreedOffRampIsBracketed(cfg, prev, round, cons, c);
    var i, k :| HonestRead(round, c, i, k) && round.aos[i].obs.offRampNext[k].seqNum <= cons.offRampNext[c];
    ReadIsPositive(cfg, prev, round, c, i, k);
  }

  lemma OnRampVotes(cfg: Config, prev: Outcome, round: Round, c: ChainSelector)
    requires Tolerable(cfg, prev, round)
    ensures OneVoteEach(OnRampBallots(round.aos))
    ensures Speakers(OnRampBallots(round.aos), c) * round.faulty <= FaultyReaders(round, c)
  {
    var bs := OnRampBallots(round.aos);
    forall i | 0 <= i < |bs|
      ensures DistinctChains(bs[i].entries)
      ensures forall k :: 0 <= k < |bs[i].entries| ==> bs[i].entries[k].0 in round.supports[round.aos[i].oracle]
    {
      assert ValidOnRampMax(round.aos[i].obs.onRampMax, round.supports[round.aos[i].oracle]);
    }
  }

  lemma OnRampFaults(cfg: Config, prev: Outcome, round: Round, c: ChainSelector, fChain: map<ChainSelector, nat>)
    requires Tolerable(cfg, prev, round)
    requires IsFChain(cfg, round.aos, fChain) && c in fChain
    ensures OneVoteEach(OnRampBallots(round.aos))
    ensures |Speakers(OnRampBallots(round.aos), c) * round.faulty| <= fChain[c]
  {
    AgreedFIsHomeF(cfg, prev, round, fChain, c);
    OnRampVotes(cfg, prev, round, c);
    SubsetSize(Speakers(OnRampBallots(round.aos), c) * round.faulty, FaultyReaders(round, c));
  }

  /** An honest reader of chain c saw an on-ramp number of at least s. */
  ghost predicate SeenOnRamp(round: Round, c: ChainSelector, s: SeqNum) {
    exists i, k :: HonestVote(OnRampBallots(round.aos), c, round.faulty, i, k)
                   && round.aos[i].obs.onRampMax[k].seqNum >= s
  }

  lemma SeenFromVotes(round: Round, c: ChainSelector, f: nat, pick: SeqNum)
    requires OneVoteEach(OnRampBallots(round.aos))
    requires |Speakers(OnRampBallots(round.aos), c) * round.faulty| <= f
    requires |Pooled(OnRampBallots(round.aos), c)| >= 2 * f + 1
    requires pick == Sort(Pooled(OnRampBallots(round.aos), c))[f]
    ensures SeenOnRamp(round, c, pick)
  {
    var bs := OnRampBallots(round.aos);
    HonestBounds(bs, c, round.faulty, f, f);
    assert HonestAtLeast(bs, c, round.faulty, pick);
    var i, k :| HonestVote(bs, c, round.faulty, i, k) && bs[i].entries[k].1 >= pick;
    assert round.aos[i].obs.onRampMax[k].seqNum == bs[i].entries[k].1;
  }

  lemma AgreedOnRampVotes(cfg: Config, aos: seq<AttributedObservation>, cons: ConsensusObservation, c: ChainSelector)
    requires IsConsensus(cfg, aos, cons) && c in cons.onRampMax
    ensures c in cons.fChain
    ensures |Pooled(OnRampBallots(aos), c)| >= 2 * cons.fChain[c] + 1
    ensures cons.onRampMax[c] == Sort(Pooled(OnRampBallots(aos), c))[cons.fChain[c]]
  {
  }

  /** No more is proposed for a chain than some honest reader of it has seen. */
  lemma AgreedOnRampIsSeen(cfg: Config, prev: Outcome, round: Round, cons: ConsensusObservation, c: ChainSelector)
    requires Tolerable(cfg, prev, round)
    requires IsConsensus(cfg, round.aos, cons) && c in cons.onRampMax
    ensures SeenOnRamp(round, c, cons.onRampMax[c])
  {
    AgreedOnRampVotes(cfg, round.aos, cons, c);
    OnRampFaults(cfg, prev, round, c, cons.fChain);
    SeenFromVotes(round, c, cons.fChain[c], cons.onRampMax[c]);
  }
}
