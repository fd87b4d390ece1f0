/** When waiting for a report ends: the attempts are counted in 32 bits. */
module MerkleRootWaits {
  import opened CcipTypes
  import opened MerkleRoot
  import opened MerkleRootRuns
  import opened MerkleRootUnanimous
  import opened MerkleRootObservation

  /** No sequence of rounds waits for more than the configured number of rounds, or one. */
  ghost predicate WaitsBounded(cfg: Config) {
    forall aos: seq<seq<AttributedObservation>>, outs: seq<Outcome>, i: nat, n: nat ::
      IsChainOf(cfg, aos, outs) && i + n < |outs| && WaitingThroughout(outs, i, n) ==>
        n <= if cfg.maxAttempts > 1 then cfg.maxAttempts else 1
  }

  /** A report that nobody sees on chain, after k attempts. */
  function Unseen(k: nat): Outcome {
    Outcome(if k == 0 then ReportGenerated else ReportInFlight, [], [MerkleRootChain(3, SeqNumRange(5, 7), 1, 9)],
            [SeqNumChain(3, 5)], Counted(k))
  }

  function Silence(cfg: Config): Observation {
    Observation([], [], [], map[cfg.dest := 1])
  }

  lemma NothingOvertaken(cfg: Config, prev: Outcome, cons: ConsensusObservation, k: nat)
    requires cons.offRampNext == map[] && prev == Unseen(k)
    ensures !Transmitted(cfg.multipleReports, prev, cons)
  {
    assert prev.roots[0].chain == 3;
  }

  lemma StillUnseen(cfg: Config, prev: Outcome, cons: ConsensusObservation, k: nat)
    requires cfg.maxAttempts > UINT32_MODULUS && cons.offRampNext == map[] && prev == Unseen(k)
    ensures StepOn(cfg, prev, cons, Unseen(k + 1))
  {
    NothingOvertaken(cfg, prev, cons, k);
    CountedOn(k);
  }

  lemma SilenceEchoes(cfg: Config, obs: Observation, cons: ConsensusObservation)
    requires obs == Silence(cfg) && cons == ConsensusObservation(map[], map[], map[], obs.fChain)
    ensures Echoes(cfg, obs, cons) && ValidObservation(obs, {}, cfg.dest)
  {
  }

  lemma UnseenStep(cfg: Config, obs: Observation, n: nat, k: nat)
    requires cfg.maxAttempts > UINT32_MODULUS && obs == Silence(cfg) && n >= 2 * cfg.f + 3
    ensures Step(cfg, Unseen(k), Chorus(obs, n), Unseen(k + 1))
  {
    var cons := ConsensusObservation(map[], map[], map[], obs.fChain);
    SilenceEchoes(cfg, obs, cons);
    StillUnseen(cfg, Unseen(k), cons, k);
    UnanimousStep(cfg, Unseen(k), obs, n, {}, cons, Unseen(k + 1));
  }

  lemma CountedOn(k: nat)
    ensures Counted(Counted(k) + 1) == Counted(k + 1) && Counted(k) < UINT32_MODULUS
  {
    assert (k % UINT32_MODULUS + 1) % UINT32_MODULUS == (k + 1) % UINT32_MODULUS;
  }

  lemma UnseenStepIn(cfg: Config, prev: Outcome, aos: seq<AttributedObservation>, out: Outcome, k: nat)
    requires cfg.maxAttempts > UINT32_MODULUS && prev == Unseen(k) && out == Unseen(k + 1)
    requires aos == Chorus(Silence(cfg), 2 * cfg.f + 3)
    ensures Step(cfg, prev, aos, out)
  {
    UnseenStep(cfg, Silence(cfg), 2 * cfg.f + 3, k);
  }

  /** Every one of the outcomes is of a report that nobody sees on chain. */
  ghost predicate AllUnseen(outs: seq<Outcome>) {
    forall k :: 0 <= k < |outs| ==> outs[k] == Unseen(k)
  }

  lemma UnseenIsAwaited(outs: seq<Outcome>, n: nat)
    requires AllUnseen(outs) && |outs| == n + 1
    ensures WaitingThroughout(outs, 0, n)
  {
  }

  /** With a larger limit such a report is waited for as long as one likes. */
  lemma UnseenIsChain(cfg: Config, aos: seq<seq<AttributedObservation>>, outs: seq<Outcome>)
    requires cfg.maxAttempts > UINT32_MODULUS && |outs| == |aos| + 1 && AllUnseen(outs)
    requires forall k :: 0 <= k < |aos| ==> aos[k] == Chorus(Silence(cfg), 2 * cfg.f + 3)
    ensures IsChainOf(cfg, aos, outs)
  {
    forall k | 0 <= k < |aos|
      ensures Step(cfg, outs[k], aos[k], outs[k + 1])
    {
      UnseenStepIn(cfg, outs[k], aos[k], outs[k + 1], k);
    }
  }

  /** Waiting is bounded exactly if the limit is at most 2^32. */
  lemma WaitsEndExactly(cfg: Config)
    ensures WaitsBounded(cfg) <==> cfg.maxAttempts <= UINT32_MODULUS
  {
    if cfg.maxAttempts <= UINT32_MODULUS {
      forall aos: seq<seq<AttributedObservation>>, outs: seq<Outcome>, i: nat, n: nat
        | IsChainOf(cfg, aos, outs) && i + n < |outs| && WaitingThroughout(outs, i, n)
        ensures n <= if cfg.maxAttempts > 1 then cfg.maxAttempts else 1
      {
        WaitsEnd(cfg, aos, outs, i, n);
      }
    } else {
      var n := cfg.maxAttempts + 1;
      var aos := seq(n, k => Chorus(Silence(cfg), 2 * cfg.f + 3));
      var outs := seq(n + 1, k requires 0 <= k => Unseen(k));
      UnseenIsChain(cfg, aos, outs);
      UnseenIsAwaited(outs, n);
    }
  }
}
