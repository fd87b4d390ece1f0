/** Rounds of the merkle-root processor in which all oracles observe the same. */
module MerkleRootUnanimous {
  import opened CcipTypes
  import opened Sorting
  import opened Votes
  import opened Consensus
  import opened Agreement
  import opened MerkleRoot
  import opened MerkleRootObservation
  import opened MerkleRootSafety

  function Chorus(obs: Observation, n: nat): seq<AttributedObservation> {
    seq(n, i requires 0 <= i < n => AttributedObservation(i, obs))
  }

  /** The same entries in all ballots: per chain that has one, the ordered consensus is its value. */
  lemma UnanimousOrdered(bs: seq<Ballot<SeqNum>>, entries: seq<(ChainSelector, SeqNum)>,
                         f: MultiThreshold<ChainSelector>, r: map<ChainSelector, SeqNum>)
    requires DistinctChains(entries) && forall i :: 0 <= i < |bs| ==> bs[i].entries == entries
    requires HasEntries(entries, f, r) && forall c :: c in r ==> |bs| >= 2 * f.Get(c).value + 1
    ensures IsOrderedConsensus(bs, f, r)
  {
    forall c
      ensures c in r <==> f.Get(c).Some? && |Pooled(bs, c)| >= 2 * f.Get(c).value + 1
      ensures c in r ==> r[c] == Sort(Pooled(bs, c))[f.Get(c).value]
    {
      UnanimousPool(bs, entries, c);
      if c in r {
        var k :| 0 <= k < |entries| && entries[k].0 == c;
        SortConstant(Pooled(bs, c), f.Get(c).value, r[c]);
      }
    }
  }

  lemma SortConstant(s: seq<SeqNum>, i: nat, v: SeqNum)
    requires i < |s| && forall j :: 0 <= j < |s| ==> s[j] == v
    ensures |Sort(s)| == |s| && Sort(s)[i] == v
  {
    SortCorrect(s);
    assert Sort(s)[i] in multiset(s);
  }

  /** cons says of every chain what obs says of it, as far as the f of the chains allows. */
  ghost predicate Echoes(cfg: Config, obs: Observation, cons: ConsensusObservation) {
    && cons.fChain == obs.fChain && cfg.dest in obs.fChain
    && HasEntries(RootEntries(obs), TwoFPlus1PerChain(obs.fChain), cons.merkleRoots)
    && HasEntries(SeqNumEntries(obs.onRampMax), PerKey(PositiveOnly(obs.fChain)), cons.onRampMax)
    && HasEntries(SeqNumEntries(obs.offRampNext), ConstantThreshold(obs.fChain[cfg.dest]), cons.offRampNext)
  }

  /** Enough oracles for F and for every f that obs names. */
  ghost predicate Enough(cfg: Config, obs: Observation, n: nat) {
    n >= 2 * cfg.f + 1 && forall c :: c in obs.fChain ==> n >= 2 * obs.fChain[c] + 1
  }

  lemma UnanimousF(cfg: Config, obs: Observation, n: nat)
    requires Enough(cfg, obs, n)
    ensures IsFChain(cfg, Chorus(obs, n), obs.fChain)
  {
    UnanimousMap(FChainBallots(Chorus(obs, n)), TwoFPlus1(cfg.f), obs.fChain);
  }

  lemma UnanimousRoots(cfg: Config, obs: Observation, n: nat, supported: set<ChainSelector>, cons: ConsensusObservation)
    requires ValidObservation(obs, supported, cfg.dest) && Echoes(cfg, obs, cons) && Enough(cfg, obs, n)
    ensures IsAgreement(RootBallots(Chorus(obs, n)), TwoFPlus1PerChain(obs.fChain), cons.merkleRoots)
  {
    assert ValidRoots(obs.merkleRoots, supported);
    UnanimousAgreement(RootBallots(Chorus(obs, n)), RootEntries(obs), TwoFPlus1PerChain(obs.fChain), cons.merkleRoots);
  }

  lemma UnanimousOnRamps(cfg: Config, obs: Observation, n: nat, supported: set<ChainSelector>,
                         cons: ConsensusObservation)
    requires ValidObservation(obs, supported, cfg.dest) && Echoes(cfg, obs, cons) && Enough(cfg, obs, n)
    ensures IsOrderedConsensus(OnRampBallots(Chorus(obs, n)), PerKey(PositiveOnly(obs.fChain)), cons.onRampMax)
  {
    assert ValidOnRampMax(obs.onRampMax, supported);
    UnanimousOrdered(OnRampBallots(Chorus(obs, n)), SeqNumEntries(obs.onRampMax), PerKey(PositiveOnly(obs.fChain)),
                     cons.onRampMax);
  }

  lemma UnanimousOffRamps(cfg: Config, obs: Observation, n: nat, supported: set<ChainSelector>,
                          cons: ConsensusObservation)
    requires ValidObservation(obs, supported, cfg.dest) && Echoes(cfg, obs, cons) && Enough(cfg, obs, n)
    ensures IsOrderedConsensus(OffRampBallots(Chorus(obs, n)), ConstantThreshold(obs.fChain[cfg.dest]),
                               cons.offRampNext)
  {
    assert ValidOffRampNext(obs.offRampNext, cfg.dest in supported);
    UnanimousOrdered(OffRampBallots(Chorus(obs, n)), SeqNumEntries(obs.offRampNext),
                     ConstantThreshold(obs.fChain[cfg.dest]), cons.offRampNext);
  }

  /** What all oracles observe is the consensus. */
  lemma UnanimousConsensus(cfg: Config, obs: Observation, n: nat, supported: set<ChainSelector>,
                           cons: ConsensusObservation)
    requires ValidObservation(obs, supported, cfg.dest) && Echoes(cfg, obs, cons) && Enough(cfg, obs, n)
    ensures IsConsensus(cfg, Chorus(obs, n), cons)
  {
    UnanimousF(cfg, obs, n);
    UnanimousRoots(cfg, obs, n, supported, cons);
    UnanimousOnRamps(cfg, obs, n, supported, cons);
    UnanimousOffRamps(cfg, obs, n, supported, cons);
  }

  lemma UnanimousStep(cfg: Config, prev: Outcome, obs: Observation, n: nat, supported: set<ChainSelector>,
                      cons: ConsensusObservation, out: Outcome)
    requires ValidObservation(obs, supported, cfg.dest) && Echoes(cfg, obs, cons) && Enough(cfg, obs, n)
    requires StepOn(cfg, prev, cons, out)
    ensures Step(cfg, prev, Chorus(obs, n), out)
  {
    UnanimousConsensus(cfg, obs, n, supported, cons);
  }

  /** n honest oracles that read the same chains. */
  ghost function UnanimousRound(obs: Observation, n: nat, supported: set<ChainSelector>): Round {
    Round(Chorus(obs, n), {}, map o | o in Span(0, n) :: supported, obs.fChain)
  }

  lemma UnanimousTolerable(cfg: Config, prev: Outcome, obs: Observation, n: nat, supported: set<ChainSelector>,
                           round: Round)
    requires round == UnanimousRound(obs, n, supported)
    requires ValidObservation(obs, supported, cfg.dest) && Honest(prev, obs.fChain, obs)
    ensures Tolerable(cfg, prev, round)
  {
    assert Observers(round.aos) * round.faulty == {};
    assert forall c :: FaultyReaders(round, c) == {};
    forall i | 0 <= i < |round.aos|
      ensures round.aos[i] == AttributedObservation(i, obs)
      ensures i in round.supports && round.supports[i] == supported
    {
      assert i in Span(0, n);
    }
  }
}
