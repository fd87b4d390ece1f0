/** Which prices are put in flight, by counting who names the destination's f. */
module PriceRecords {
  import opened CcipTypes
  import opened Sorting
  import opened Votes
  import opened Consensus
  import opened Agreement
  import opened Prices

  ghost predicate DistinctOracles(aos: seq<AttributedObservation>) {
    forall i, j :: 0 <= i < j < |aos| ==> aos[i].oracle != aos[j].oracle
  }

  /** The oracles whose token price observation names v as the f of chain c. */
  ghost function TokenNamers(aos: seq<AttributedObservation>, c: ChainSelector, v: nat): set<OracleId> {
    set i | 0 <= i < |aos| && c in aos[i].obs.tokenFChain && aos[i].obs.tokenFChain[c] == v :: aos[i].oracle
  }

  /** The oracles whose chain fee observation names v as the f of chain c. */
  ghost function FeeNamers(aos: seq<AttributedObservation>, c: ChainSelector, v: nat): set<OracleId> {
    set i | 0 <= i < |aos| && c in aos[i].obs.feeFChain && aos[i].obs.feeFChain[c] == v :: aos[i].oracle
  }

  /** 2F + 1 oracles name the same f in their token price observations, and no other f has as many. */
  ghost predicate TokenFNamed(cfg: Config, aos: seq<AttributedObservation>) {
    exists v: nat ::
      && |TokenNamers(aos, cfg.dest, v)| >= 2 * cfg.f + 1
      && forall w: nat :: |TokenNamers(aos, cfg.dest, w)| >= 2 * cfg.f + 1 ==> w == v
  }

  /** The same for the chain fee observations. */
  ghost predicate FeeFNamed(cfg: Config, aos: seq<AttributedObservation>) {
    exists v: nat ::
      && |FeeNamers(aos, cfg.dest, v)| >= 2 * cfg.f + 1
      && forall w: nat :: |FeeNamers(aos, cfg.dest, w)| >= 2 * cfg.f + 1 ==> w == v
  }

  // ---------- votes are names ----------

  lemma WinsByVoters(bs: seq<Ballot<nat>>, c: ChainSelector, th: nat, v: nat)
    requires OneVoteEach(bs) && th > 0
    ensures Winner(Pooled(bs, c), th, v) <==> |VotersFor(bs, c, v)| >= th
  {
    if |VotersFor(bs, c, v)| >= th {
      VotedWins(bs, c, th, v);
    }
    if Winner(Pooled(bs, c), th, v) {
      assert Speakers(bs, c) * {} == {};
      HonestWinner(bs, c, th, v, {}, 0);
      assert VotersFor(bs, c, v) - {} == VotersFor(bs, c, v);
    }
  }

  lemma TokenVoters(aos: seq<AttributedObservation>, c: ChainSelector, v: nat, bs: seq<Ballot<nat>>)
    requires bs == TokenBallots(aos)
    ensures VotersFor(bs, c, v) == TokenNamers(aos, c, v)
  {
    forall o | o in VotersFor(bs, c, v)
      ensures o in TokenNamers(aos, c, v)
    {
      var i, k :| 0 <= i < |bs| && 0 <= k < |bs[i].entries| && bs[i].entries[k] == (c, v) && bs[i].oracle == o;
      EntryOfMap(aos[i].obs.tokenFChain, bs[i].entries, k, c, v);
    }
    forall o | o in TokenNamers(aos, c, v)
      ensures o in VotersFor(bs, c, v)
    {
      var i :| 0 <= i < |aos| && c in aos[i].obs.tokenFChain && aos[i].obs.tokenFChain[c] == v && aos[i].oracle == o;
      MapEntriesComplete(aos[i].obs.tokenFChain, c);
      var k :| 0 <= k < |bs[i].entries| && bs[i].entries[k] == (c, v);
    }
  }

  lemma FeeVoters(aos: seq<AttributedObservation>, c: ChainSelector, v: nat, bs: seq<Ballot<nat>>)
    requires bs == FeeBallots(aos)
    ensures VotersFor(bs, c, v) == FeeNamers(aos, c, v)
  {
    forall o | o in VotersFor(bs, c, v)
      ensures o in FeeNamers(aos, c, v)
    {
      var i, k :| 0 <= i < |bs| && 0 <= k < |bs[i].entries| && bs[i].entries[k] == (c, v) && bs[i].oracle == o;
      EntryOfMap(aos[i].obs.feeFChain, bs[i].entries, k, c, v);
    }
    forall o | o in FeeNamers(aos, c, v)
      ensures o in VotersFor(bs, c, v)
    {
      var i :| 0 <= i < |aos| && c in aos[i].obs.feeFChain && aos[i].obs.feeFChain[c] == v && aos[i].oracle == o;
      MapEntriesComplete(aos[i].obs.feeFChain, c);
      var k :| 0 <= k < |bs[i].entries| && bs[i].entries[k] == (c, v);
    }
  }

  lemma OneTokenVote(aos: seq<AttributedObservation>, bs: seq<Ballot<nat>>)
    requires DistinctOracles(aos) && bs == TokenBallots(aos)
    ensures OneVoteEach(bs)
  {
    forall i | 0 <= i < |aos|
      ensures DistinctChains(bs[i].entries)
    {
      MapEntriesExact(aos[i].obs.tokenFChain);
    }
  }

  lemma OneFeeVote(aos: seq<AttributedObservation>, bs: seq<Ballot<nat>>)
    requires DistinctOracles(aos) && bs == FeeBallots(aos)
    ensures OneVoteEach(bs)
  {
    forall i | 0 <= i < |aos|
      ensures DistinctChains(bs[i].entries)
    {
      MapEntriesExact(aos[i].obs.feeFChain);
    }
  }

  lemma TokenFByCount(cfg: Config, aos: seq<AttributedObservation>, bs: seq<Ballot<nat>>)
    requires DistinctOracles(aos) && bs == TokenBallots(aos)
    ensures (exists v: nat :: DestFAgreed(cfg, bs, v)) <==> TokenFNamed(cfg, aos)
  {
    OneTokenVote(aos, bs);
    forall v: nat
      ensures Winner(Pooled(bs, cfg.dest), TwoFPlus1(cfg.f), v) <==> |TokenNamers(aos, cfg.dest, v)| >= 2 * cfg.f + 1
    {
      WinsByVoters(bs, cfg.dest, TwoFPlus1(cfg.f), v);
      TokenVoters(aos, cfg.dest, v, bs);
    }
    forall v: nat
      ensures DestFAgreed(cfg, bs, v) <==>
              && |TokenNamers(aos, cfg.dest, v)| >= 2 * cfg.f + 1
              && forall w: nat :: |TokenNamers(aos, cfg.dest, w)| >= 2 * cfg.f + 1 ==> w == v
    {
    }
  }

  lemma FeeFByCount(cfg: Config, aos: seq<AttributedObservation>, bs: seq<Ballot<nat>>)
    requires DistinctOracles(aos) && bs == FeeBallots(aos)
    ensures (exists v: nat :: DestFAgreed(cfg, bs, v)) <==> FeeFNamed(cfg, aos)
  {
    OneFeeVote(aos, bs);
    forall v: nat
      ensures Winner(Pooled(bs, cfg.dest), TwoFPlus1(cfg.f), v) <==> |FeeNamers(aos, cfg.dest, v)| >= 2 * cfg.f + 1
    {
      WinsByVoters(bs, cfg.dest, TwoFPlus1(cfg.f), v);
      FeeVoters(aos, cfg.dest, v, bs);
    }
    forall v: nat
      ensures DestFAgreed(cfg, bs, v) <==>
              && |FeeNamers(aos, cfg.dest, v)| >= 2 * cfg.f + 1
              && forall w: nat :: |FeeNamers(aos, cfg.dest, w)| >= 2 * cfg.f + 1 ==> w == v
    {
    }
  }

  // ---------- what a round puts in flight ----------

  /** Some price is agreed: of a token, or of gas. */
  ghost predicate SomePrice(cfg: Config, round: Round) {
    || (round.tokenPrices > 0 && TokenFNamed(cfg, round.aos))
    || (round.gasPrices > 0 && FeeFNamed(cfg, round.aos))
  }

  /** With nothing in flight a round puts its prices in flight, with all checks still to come, exactly if
      some token price or some gas price is agreed; otherwise nothing is in flight after it. */
  lemma RecordedExactly(cfg: Config, prev: MainOutcome, round: Round, out: MainOutcome)
    requires DistinctOracles(round.aos) && prev.inflight == 0 && Step(cfg, prev, round, out)
    ensures out == if SomePrice(cfg, round) then MainOutcome(round.seqNr, Int32(cfg.retries)) else MainOutcome(0, 0)
  {
    TokenFByCount(cfg, round.aos, TokenBallots(round.aos));
    FeeFByCount(cfg, round.aos, FeeBallots(round.aos));
  }

  // ---------- what becomes of prices in flight ----------

  /** The oracles whose plugin observation names v as the f of chain c. */
  ghost function Namers(aos: seq<AttributedObservation>, c: ChainSelector, v: nat): set<OracleId> {
    set i | 0 <= i < |aos| && c in aos[i].obs.fChain && aos[i].obs.fChain[c] == v :: aos[i].oracle
  }

  /** 2F + 1 oracles name v, and no other f has as many. */
  ghost predicate FNamed(cfg: Config, aos: seq<AttributedObservation>, v: nat) {
    && |Namers(aos, cfg.dest, v)| >= 2 * cfg.f + 1
    && forall w: nat :: |Namers(aos, cfg.dest, w)| >= 2 * cfg.f + 1 ==> w == v
  }

  /** The oracles that see some price round on chain. */
  ghost function Seers(aos: seq<AttributedObservation>): set<OracleId> {
    set i | 0 <= i < |aos| && aos[i].obs.onChain > 0 :: aos[i].oracle
  }

  /** The oracles that see a price round on chain, but an older one than n. */
  ghost function OlderSeers(aos: seq<AttributedObservation>, n: SeqNum): set<OracleId> {
    set i | 0 <= i < |aos| && 0 < aos[i].obs.onChain < n :: aos[i].oracle
  }

  lemma FVoters(aos: seq<AttributedObservation>, c: ChainSelector, v: nat, bs: seq<Ballot<nat>>)
    requires bs == FChainBallots(aos)
    ensures VotersFor(bs, c, v) == Namers(aos, c, v)
  {
    forall o | o in VotersFor(bs, c, v)
      ensures o in Namers(aos, c, v)
    {
      var i, k :| 0 <= i < |bs| && 0 <= k < |bs[i].entries| && bs[i].entries[k] == (c, v) && bs[i].oracle == o;
      EntryOfMap(aos[i].obs.fChain, bs[i].entries, k, c, v);
    }
    forall o | o in Namers(aos, c, v)
      ensures o in VotersFor(bs, c, v)
    {
      var i :| 0 <= i < |aos| && c in aos[i].obs.fChain && aos[i].obs.fChain[c] == v && aos[i].oracle == o;
      MapEntriesComplete(aos[i].obs.fChain, c);
      var k :| 0 <= k < |bs[i].entries| && bs[i].entries[k] == (c, v);
    }
  }

  lemma FByCount(cfg: Config, aos: seq<AttributedObservation>, bs: seq<Ballot<nat>>)
    requires DistinctOracles(aos) && bs == FChainBallots(aos)
    ensures forall v: nat :: DestFAgreed(cfg, bs, v) <==> FNamed(cfg, aos, v)
  {
    forall i | 0 <= i < |aos|
      ensures DistinctChains(bs[i].entries)
    {
      MapEntriesExact(aos[i].obs.fChain);
    }
    forall v: nat
      ensures Winner(Pooled(bs, cfg.dest), TwoFPlus1(cfg.f), v) <==> |Namers(aos, cfg.dest, v)| >= 2 * cfg.f + 1
    {
      WinsByVoters(bs, cfg.dest, TwoFPlus1(cfg.f), v);
      FVoters(aos, cfg.dest, v, bs);
    }
  }

  lemma OneSight(dest: ChainSelector, aos: seq<AttributedObservation>, bs: seq<Ballot<SeqNum>>)
    requires DistinctOracles(aos) && bs == OnChainBallots(dest, aos)
    ensures OneVoteEach(bs)
  {
  }

  lemma SeersVote(dest: ChainSelector, aos: seq<AttributedObservation>, bs: seq<Ballot<SeqNum>>, n: SeqNum,
                  older: SeqNum -> bool)
    requires DistinctOracles(aos) && bs == OnChainBallots(dest, aos) && forall v: SeqNum :: older(v) <==> v < n
    ensures |Pooled(bs, dest)| == |Seers(aos)| && CountIf(Pooled(bs, dest), older) == |OlderSeers(aos, n)|
  {
    OneSight(dest, aos, bs);
    PoolIsSpeakers(bs, dest);
    CountIsOracles(bs, dest, older);
    forall i | 0 <= i < |aos|
      ensures bs[i].entries == if aos[i].obs.onChain > 0 then [(dest, aos[i].obs.onChain)] else []
      ensures Backs(bs[i], dest, older) <==> 0 < aos[i].obs.onChain < n
    {
      if 0 < aos[i].obs.onChain < n {
        assert bs[i].entries[0] == (dest, aos[i].obs.onChain);
      }
    }
    assert Backers(bs, dest, older) == OlderSeers(aos, n);
    SpeakersSee(dest, aos, bs);
  }

  lemma SpeakersSee(dest: ChainSelector, aos: seq<AttributedObservation>, bs: seq<Ballot<SeqNum>>)
    requires bs == OnChainBallots(dest, aos)
    ensures Speakers(bs, dest) == Seers(aos)
  {
    forall o | o in Seers(aos)
      ensures o in Speakers(bs, dest)
    {
      var i :| 0 <= i < |aos| && aos[i].obs.onChain > 0 && aos[i].oracle == o;
      assert bs[i].entries[0].0 == dest;
    }
    forall o | o in Speakers(bs, dest)
      ensures o in Seers(aos)
    {
      var i, k :| 0 <= i < |bs| && 0 <= k < |bs[i].entries| && bs[i].entries[k].0 == dest && bs[i].oracle == o;
      assert aos[i].obs.onChain > 0;
    }
  }

  /** Checks remain, an f is agreed, and more than f oracles see an older round on chain. */
  ghost predicate Outdated(cfg: Config, prev: MainOutcome, aos: seq<AttributedObservation>) {
    prev.remaining != 0 && exists f: nat :: FNamed(cfg, aos, f) && |OlderSeers(aos, prev.inflight)| > f
  }

  /** Checks remain, an f is agreed, and more than f oracles see a round, but no more than f an older one. */
  ghost predicate Arrived(cfg: Config, prev: MainOutcome, aos: seq<AttributedObservation>) {
    prev.remaining != 0
    && exists f: nat :: FNamed(cfg, aos, f) && |Seers(aos)| > f && |OlderSeers(aos, prev.inflight)| <= f
  }

  lemma PicksByCount(cfg: Config, prev: MainOutcome, aos: seq<AttributedObservation>, votes: seq<SeqNum>)
    requires DistinctOracles(aos) && votes == Pooled(OnChainBallots(cfg.dest, aos), cfg.dest)
    ensures |votes| == |Seers(aos)| >= |OlderSeers(aos, prev.inflight)|
    ensures forall f: nat :: f < |votes| ==>
              (Sort(votes)[f] < prev.inflight <==> |OlderSeers(aos, prev.inflight)| > f)
  {
    var older := (v: SeqNum) => v < prev.inflight;
    SeersVote(cfg.dest, aos, OnChainBallots(cfg.dest, aos), prev.inflight, older);
    OlderAreSeers(aos, prev.inflight);
    forall f: nat | f < |votes|
      ensures Sort(votes)[f] < prev.inflight <==> |OlderSeers(aos, prev.inflight)| > f
    {
      PickBelow(votes, f, prev.inflight, older);
    }
  }

  /** Prices in flight stay so, with one check less, exactly if they are outdated on chain; they count as
      seen exactly if they have arrived; and in all other cases they are given up. */
  lemma KeptExactly(cfg: Config, prev: MainOutcome, aos: seq<AttributedObservation>, out: MainOutcome, seen: bool)
    requires DistinctOracles(aos) && prev.inflight > 0 && IsMainOutcome(cfg, prev, aos, out, seen)
    ensures out == if Outdated(cfg, prev, aos) then MainOutcome(prev.inflight, Int32(prev.remaining - 1))
                   else MainOutcome(0, 0)
    ensures seen <==> Arrived(cfg, prev, aos)
  {
    FByCount(cfg, aos, FChainBallots(aos));
    PicksByCount(cfg, prev, aos, Pooled(OnChainBallots(cfg.dest, aos), cfg.dest));
  }

  lemma OlderAreSeers(aos: seq<AttributedObservation>, n: SeqNum)
    ensures |OlderSeers(aos, n)| <= |Seers(aos)|
  {
    SubsetSize(OlderSeers(aos, n), Seers(aos));
  }

  // ---------- gas prices alone ----------

  /** n oracles name an f for the destination in their chain fee observations only. */
  function FeeOnly(dest: ChainSelector, n: nat): seq<AttributedObservation> {
    seq(n, i requires 0 <= i < n => AttributedObservation(i, Observation(map[], map[dest := 1], map[], 0)))
  }

  lemma FeeOnlyNamers(dest: ChainSelector, aos: seq<AttributedObservation>, n: nat, v: nat)
    requires aos == FeeOnly(dest, n)
    ensures FeeNamers(aos, dest, v) == if v == 1 then Span(0, n) else {}
  {
    forall i | 0 <= i < |aos|
      ensures aos[i].oracle == i && aos[i].obs.feeFChain == map[dest := 1]
    {
    }
    if v == 1 {
      forall o | o in Span(0, n)
        ensures o in FeeNamers(aos, dest, v)
      {
        assert aos[o].oracle == o;
      }
    }
  }

  lemma FeeOnlyNames(cfg: Config, aos: seq<AttributedObservation>, n: nat)
    requires n >= 2 * cfg.f + 1 && aos == FeeOnly(cfg.dest, n)
    ensures DistinctOracles(aos) && FeeFNamed(cfg, aos)
  {
    forall v: nat
      ensures |FeeNamers(aos, cfg.dest, v)| == if v == 1 then n else 0
    {
      FeeOnlyNamers(cfg.dest, aos, n, v);
    }
    var one: nat := 1;
    assert |FeeNamers(aos, cfg.dest, one)| == n;
  }

  lemma GasRecorded(cfg: Config, round: Round)
    requires round == Round(round.seqNr, FeeOnly(cfg.dest, 2 * cfg.f + 1), 0, 1)
    ensures Step(cfg, NOTHING, round, MainOutcome(round.seqNr, Int32(cfg.retries)))
  {
    FeeOnlyNames(cfg, round.aos, 2 * cfg.f + 1);
    FeeFByCount(cfg, round.aos, FeeBallots(round.aos));
    assert IsMainOutcome(cfg, NOTHING, round.aos, NOTHING, false);
    assert IsPriceCount(cfg, TokenBallots(round.aos), 0, 0);
    assert IsPriceCount(cfg, FeeBallots(round.aos), 1, 1);
    assert Recorded(cfg, round.seqNr, NOTHING, 0 + 1) == MainOutcome(round.seqNr, Int32(cfg.retries));
  }

  lemma FeeOnlyTolerable(cfg: Config, round: Round)
    requires round == Round(round.seqNr, FeeOnly(cfg.dest, 2 * cfg.f + 1), 0, 1) && round.seqNr > 0
    ensures Tolerable(cfg, NOTHING, round, {})
  {
    assert Observers(round.aos) * {} == {};
  }

  /** A run of one round with agreed gas prices and no token prices: its number is in flight afterwards. */
  lemma GasAloneInFlight(cfg: Config, seqNr: SeqNum, rounds: seq<Round>, outs: seq<MainOutcome>)
    requires seqNr > 0 && rounds == [Round(seqNr, FeeOnly(cfg.dest, 2 * cfg.f + 1), 0, 1)]
    requires outs == [NOTHING, MainOutcome(seqNr, Int32(cfg.retries))]
    ensures IsRun(cfg, rounds, [{}], outs)
  {
    GasRecorded(cfg, rounds[0]);
    FeeOnlyTolerable(cfg, rounds[0]);
  }
}
