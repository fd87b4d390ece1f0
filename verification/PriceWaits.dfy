/** How long prices can stay in flight: exactly as long as the countdown of checks, with its wrapping,
    lasts. */
module PriceWaits {
  import opened CcipTypes
  import opened Sorting
  import opened Votes
  import opened Prices

  const DEST: ChainSelector := 1

  const F_DEST: map<ChainSelector, nat> := map[1 := 1]

  /** Two honest oracles that, with nothing in flight, propose a price, and otherwise see round 1 on chain. */
  function Pair(proposing: bool): seq<AttributedObservation> {
    var tokenF: map<ChainSelector, nat> := if proposing then F_DEST else map[];
    var onChain: SeqNum := if proposing then 0 else 1;
    [AttributedObservation(0, Observation(tokenF, map[], F_DEST, onChain)),
     AttributedObservation(1, Observation(tokenF, map[], F_DEST, onChain))]
  }

  /** Round 5 agrees on a price; in the rounds after it nothing changes on chain. */
  function StuckRound(k: nat): Round {
    if k == 0 then Round(5, Pair(true), 1, 0) else Round(6, Pair(false), 0, 0)
  }

  function StuckOutcome(retries: int, k: nat): MainOutcome {
    if k == 0 then NOTHING else MainOutcome(5, Int32(retries - (k - 1)))
  }

  lemma SingletonEntries(m: map<ChainSelector, nat>, v: nat)
    requires m == map[DEST := v]
    ensures MapEntries(m) == [(DEST, v)]
  {
    assert m.Keys == {DEST};
    assert Least({DEST}) == DEST;
    assert {DEST} - {DEST} == {};
    assert Ascending(m.Keys) == [DEST];
    assert |MapEntries(m)| == 1 && MapEntries(m)[0] == (DEST, v);
  }

  lemma PoolOfTwo<V>(a: Ballot<V>, b: Ballot<V>, c: ChainSelector)
    ensures Pooled([a, b], c) == Cast(a.entries, c) + Cast(b.entries, c)
  {
    assert [a, b][..1] == [a];
    assert [a][..0] == [];
    assert Pooled([a], c) == Cast(a.entries, c);
  }

  lemma PairAgrees(cfg: Config, proposing: bool)
    requires cfg.f == 0 && cfg.dest == DEST
    ensures DestFAgreed(cfg, FChainBallots(Pair(proposing)), 1)
  {
    var bs := FChainBallots(Pair(proposing));
    SingletonEntries(F_DEST, 1);
    PoolOfTwo(bs[0], bs[1], DEST);
    assert bs == [bs[0], bs[1]];
    CastOfOne(DEST, 1);
    assert Pooled(bs, DEST) == [1, 1];
    assert multiset([1, 1])[1] == 2;
  }

  lemma PairProposes(cfg: Config)
    requires cfg.f == 0 && cfg.dest == DEST
    ensures DestFAgreed(cfg, TokenBallots(Pair(true)), 1)
  {
    var bs := TokenBallots(Pair(true));
    SingletonEntries(F_DEST, 1);
    PoolOfTwo(bs[0], bs[1], DEST);
    assert bs == [bs[0], bs[1]];
    CastOfOne(DEST, 1);
    assert Pooled(bs, DEST) == [1, 1];
    assert multiset([1, 1])[1] == 2;
  }

  lemma PairSees()
    ensures Pooled(OnChainBallots(DEST, Pair(false)), DEST) == [1, 1]
    ensures Sort([1, 1])[1] == 1
  {
    var bs := OnChainBallots(DEST, Pair(false));
    PoolOfTwo(bs[0], bs[1], DEST);
    assert bs == [bs[0], bs[1]];
    CastOfOne(DEST, 1);
    SortOfSorted([1, 1]);
  }

  lemma PairIsHonest(cfg: Config, prev: MainOutcome, proposing: bool, round: Round)
    requires round.aos == Pair(proposing) && round.seqNr > 0 && (proposing <==> prev.inflight == 0)
    ensures Tolerable(cfg, prev, round, {})
  {
    assert Observers(round.aos) * {} == {};
  }

  /** The countdown has not reached zero after k - 1 checks, and goes on. */
  lemma StillCounting(retries: int, k: nat)
    requires 0 < k <= retries % UINT32_MODULUS
    ensures Int32(retries - (k - 1)) != 0
    ensures Int32(Int32(retries - (k - 1)) - 1) == Int32(retries - k)
  {
    ReducedBy(retries, k - 1);
    ReducedBy(retries, k);
  }

  lemma ReducedBy(retries: int, k: nat)
    requires k <= retries % UINT32_MODULUS
    ensures (retries - k) % UINT32_MODULUS == retries % UINT32_MODULUS - k
  {
    var d := retries % UINT32_MODULUS;
    assert retries - k == retries / UINT32_MODULUS * UINT32_MODULUS + (d - k);
  }

  lemma StuckProposes(cfg: Config, out: MainOutcome)
    requires cfg.f == 0 && cfg.dest == DEST && out == MainOutcome(5, Int32(cfg.retries))
    ensures Step(cfg, NOTHING, StuckRound(0), out)
  {
    var round := StuckRound(0);
    PairProposes(cfg);
    assert IsMainOutcome(cfg, NOTHING, round.aos, NOTHING, false);
    assert IsPriceCount(cfg, TokenBallots(round.aos), round.tokenPrices, 1);
    assert IsPriceCount(cfg, FeeBallots(round.aos), round.gasPrices, 0);
    assert out == Recorded(cfg, round.seqNr, NOTHING, 1 + 0);
  }

  lemma StuckWaits(cfg: Config, prev: MainOutcome, out: MainOutcome, round: Round)
    requires cfg.f == 0 && cfg.dest == DEST && round == StuckRound(1)
    requires prev.inflight == 5 && prev.remaining != 0 && out == MainOutcome(5, Int32(prev.remaining - 1))
    ensures Step(cfg, prev, round, out)
  {
    PairAgrees(cfg, false);
    PairSees();
    var votes := Pooled(OnChainBallots(DEST, round.aos), DEST);
    assert IsCheck(prev, votes, 1, out, false);
    assert IsMainOutcome(cfg, prev, round.aos, out, false);
    assert IsPriceCount(cfg, TokenBallots(round.aos), round.tokenPrices, 0);
    assert IsPriceCount(cfg, FeeBallots(round.aos), round.gasPrices, 0);
    assert out == Recorded(cfg, round.seqNr, out, 0 + 0);
  }

  lemma StuckStep(cfg: Config, k: nat, prev: MainOutcome, out: MainOutcome)
    requires cfg.f == 0 && cfg.dest == DEST && k <= cfg.retries % UINT32_MODULUS
    requires prev == StuckOutcome(cfg.retries, k) && out == StuckOutcome(cfg.retries, k + 1)
    ensures Tolerable(cfg, prev, StuckRound(k), {}) && Step(cfg, prev, StuckRound(k), out)
  {
    PairIsHonest(cfg, prev, k == 0, StuckRound(k));
    if k == 0 {
      StuckProposes(cfg, out);
    } else {
      StillCounting(cfg.retries, k);
      StuckWaits(cfg, prev, out, StuckRound(k));
    }
  }

  function StuckRounds(n: nat): seq<Round> {
    seq(n + 1, k requires 0 <= k < n + 1 => StuckRound(k))
  }

  function StuckOutcomes(retries: int, n: nat): seq<MainOutcome> {
    seq(n + 2, k requires 0 <= k < n + 2 => StuckOutcome(retries, k))
  }

  function NobodyFaulty(n: nat): seq<set<OracleId>> {
    seq(n + 1, k => {})
  }

  lemma StuckRun(cfg: Config, n: nat)
    requires cfg.f == 0 && cfg.dest == DEST && n <= cfg.retries % UINT32_MODULUS
    ensures IsRun(cfg, StuckRounds(n), NobodyFaulty(n), StuckOutcomes(cfg.retries, n))
  {
    forall k | 0 <= k < n + 1
      ensures Tolerable(cfg, StuckOutcomes(cfg.retries, n)[k], StuckRounds(n)[k], NobodyFaulty(n)[k])
      ensures Step(cfg, StuckOutcomes(cfg.retries, n)[k], StuckRounds(n)[k], StuckOutcomes(cfg.retries, n)[k + 1])
    {
      StuckStep(cfg, k, StuckOutcomes(cfg.retries, n)[k], StuckOutcomes(cfg.retries, n)[k + 1]);
    }
  }

  /** Some run keeps something in flight for n + 1 consecutive outcomes. */
  ghost predicate CanWait(retries: int, n: nat) {
    exists cfg: Config, rounds, faulty, outs, i: nat ::
      && cfg.retries == retries
      && IsRun(cfg, rounds, faulty, outs)
      && i + n < |outs| && InFlightThroughout(outs, i, n)
  }

  /** Something can stay in flight for n + 1 consecutive outcomes exactly if n <= R mod 2^32: for
      0 <= R < 2^32 that is R + 1 outcomes, but for a negative R, which the configuration's validation
      lets pass, the countdown has to wrap first. */
  lemma WaitsExactly(retries: int, n: nat)
    ensures CanWait(retries, n) <==> n <= retries % UINT32_MODULUS
  {
    if CanWait(retries, n) {
      var cfg: Config, rounds, faulty, outs, i: nat :|
        && cfg.retries == retries
        && IsRun(cfg, rounds, faulty, outs)
        && i + n < |outs| && InFlightThroughout(outs, i, n);
      InFlightIsBounded(cfg, rounds, faulty, outs, i, n);
    }
    if n <= retries % UINT32_MODULUS {
      var cfg := Config(0, DEST, retries);
      StuckRun(cfg, n);
      assert InFlightThroughout(StuckOutcomes(retries, n), 1, n);
    }
  }

  /** With minus one retry, more than four thousand million outcomes. */
  lemma NegativeRetriesWaitLong()
    ensures CanWait(-1, 0xFFFF_FFFF) && !CanWait(-1, 0x1_0000_0000)
  {
    WaitsExactly(-1, 0xFFFF_FFFF);
    WaitsExactly(-1, 0x1_0000_0000);
  }
}
