/** The in-flight price machine of the commit plugin: after prices are agreed, no others are until
    they are seen on chain or the checks run out. */
module Prices {
  import opened CcipTypes
  import opened Sorting
  import opened Votes
  import opened Consensus
  import opened Agreement

  /** inflight is the OCR round whose prices are still awaited, zero for none. Between rounds the
      remaining checks are encoded in 32 bits, so they wrap. */
  datatype MainOutcome = MainOutcome(inflight: SeqNum, remaining: int)

  const NOTHING := MainOutcome(0, 0)

  /** The parts of an observation that decide about prices: the f per chain as seen by the token
      price processor, by the chain fee processor and by the plugin, and the latest price round
      on chain, zero if not observed. */
  datatype Observation = Observation(
    tokenFChain: map<ChainSelector, nat>,
    feeFChain: map<ChainSelector, nat>,
    fChain: map<ChainSelector, nat>,
    onChain: SeqNum)

  datatype AttributedObservation = AttributedObservation(oracle: OracleId, obs: Observation)

  datatype Config = Config(f: nat, dest: ChainSelector, retries: int)

  /** One OCR round: its number, its observations, and how many token and gas prices the price
      processors would select if they get past the agreement on the destination's f. */
  datatype Round = Round(seqNr: SeqNum, aos: seq<AttributedObservation>, tokenPrices: nat, gasPrices: nat)

  function TokenBallots(aos: seq<AttributedObservation>): seq<Ballot<nat>> {
    seq(|aos|, i requires 0 <= i < |aos| => Ballot(aos[i].oracle, MapEntries(aos[i].obs.tokenFChain)))
  }

  function FeeBallots(aos: seq<AttributedObservation>): seq<Ballot<nat>> {
    seq(|aos|, i requires 0 <= i < |aos| => Ballot(aos[i].oracle, MapEntries(aos[i].obs.feeFChain)))
  }

  function FChainBallots(aos: seq<AttributedObservation>): seq<Ballot<nat>> {
    seq(|aos|, i requires 0 <= i < |aos| => Ballot(aos[i].oracle, MapEntries(aos[i].obs.fChain)))
  }

  /** The latest price round on chain, as a vote about the destination; zero is no vote. */
  function OnChainEntries(dest: ChainSelector, obs: Observation): seq<(ChainSelector, SeqNum)> {
    if obs.onChain > 0 then [(dest, obs.onChain)] else []
  }

  function OnChainBallots(dest: ChainSelector, aos: seq<AttributedObservation>): seq<Ballot<SeqNum>> {
    seq(|aos|, i requires 0 <= i < |aos| => Ballot(aos[i].oracle, OnChainEntries(dest, aos[i].obs)))
  }

  // ---------- one round ----------

  /** At least 2F + 1 oracles name the same f for the destination, and no other f gets as many. */
  ghost predicate DestFAgreed(cfg: Config, bs: seq<Ballot<nat>>, fDest: nat) {
    Agreed(Pooled(bs, cfg.dest), TwoFPlus1(cfg.f), fDest)
  }

  /** A price processor that cannot agree on the destination's f selects nothing. */
  ghost predicate IsPriceCount(cfg: Config, bs: seq<Ballot<nat>>, selected: nat, count: nat) {
    if exists fDest: nat :: DestFAgreed(cfg, bs, fDest) then count == selected else count == 0
  }

  /** What becomes of prices in flight; seen tells that they were found on chain. */
  ghost predicate IsMainOutcome(cfg: Config, prev: MainOutcome, aos: seq<AttributedObservation>, out: MainOutcome,
                                seen: bool) {
    var votes := Pooled(OnChainBallots(cfg.dest, aos), cfg.dest);
    if prev.inflight == 0 || prev.remaining == 0 then out == NOTHING && !seen
    else
      (exists f: nat :: DestFAgreed(cfg, FChainBallots(aos), f) && f < |votes| && IsCheck(prev, votes, f, out, seen))
      || ((forall f: nat :: DestFAgreed(cfg, FChainBallots(aos), f) ==> f >= |votes|) && out == NOTHING && !seen)
  }

  /** The check itself: the f-th smallest number on chain against the awaited one. */
  ghost predicate IsCheck(prev: MainOutcome, votes: seq<SeqNum>, f: nat, out: MainOutcome, seen: bool)
    requires f < |votes|
  {
    if Sort(votes)[f] >= prev.inflight then out == NOTHING && seen
    else out == MainOutcome(prev.inflight, Int32(prev.remaining - 1)) && !seen
  }

  /** One round of the plugin: prices agreed in it are in flight from now on. */
  ghost predicate Step(cfg: Config, prev: MainOutcome, round: Round, out: MainOutcome) {
    exists main, seen, tokens: nat, gas: nat ::
      && IsMainOutcome(cfg, prev, round.aos, main, seen)
      && IsPriceCount(cfg, TokenBallots(round.aos), round.tokenPrices, tokens)
      && IsPriceCount(cfg, FeeBallots(round.aos), round.gasPrices, gas)
      && out == Recorded(cfg, round.seqNr, main, tokens + gas)
  }

  function Recorded(cfg: Config, seqNr: SeqNum, main: MainOutcome, prices: nat): MainOutcome {
    if prices > 0 then MainOutcome(seqNr, Int32(cfg.retries)) else main
  }

  method AgreeOnDestF(cfg: Config, bs: seq<Ballot<nat>>) returns (f: Option<nat>)
    ensures f.Some? ==> DestFAgreed(cfg, bs, f.value)
    ensures f.None? ==> forall v: nat :: !DestFAgreed(cfg, bs, v)
  {
    var fChain := AgreePerChain(bs, ConstantThreshold(TwoFPlus1(cfg.f)));
    if cfg.dest in fChain {
      f := Some(fChain[cfg.dest]);
    } else {
      f := None;
      forall v: nat
        ensures !DestFAgreed(cfg, bs, v)
      {
        assert ConstantThreshold(TwoFPlus1(cfg.f)).Get(cfg.dest) == Some(TwoFPlus1(cfg.f));
      }
    }
  }

  method GetMainOutcome(cfg: Config, prev: MainOutcome, aos: seq<AttributedObservation>)
    returns (out: MainOutcome, seen: bool)
    ensures IsMainOutcome(cfg, prev, aos, out, seen)
  {
    if prev.inflight == 0 || prev.remaining == 0 {
      return NOTHING, false;
    }
    var pool := Aggregate(OnChainBallots(cfg.dest, aos));
    var observed := Listed(pool, cfg.dest);
    var fDest := AgreeOnDestF(cfg, FChainBallots(aos));
    if fDest.None? {
      return NOTHING, false;
    }
    if |observed| < fDest.value + 1 {
      return NOTHING, false;
    }
    if Sort(observed)[fDest.value] >= prev.inflight {
      out, seen := NOTHING, true;
    } else {
      out, seen := MainOutcome(prev.inflight, Int32(prev.remaining - 1)), false;
    }
    assert IsCheck(prev, observed, fDest.value, out, seen);
  }

  method Outcome(cfg: Config, prev: MainOutcome, round: Round) returns (out: MainOutcome)
    ensures Step(cfg, prev, round, out)
  {
    var main, seen := GetMainOutcome(cfg, prev, round.aos);
    var tokenF := AgreeOnDestF(cfg, TokenBallots(round.aos));
    var tokens := if tokenF.Some? then round.tokenPrices else 0;
    var feeF := AgreeOnDestF(cfg, FeeBallots(round.aos));
    var gas := if feeF.Some? then round.gasPrices else 0;
    out := Recorded(cfg, round.seqNr, main, tokens + gas);
    assert IsPriceCount(cfg, TokenBallots(round.aos), round.tokenPrices, tokens);
    assert IsPriceCount(cfg, FeeBallots(round.aos), round.gasPrices, gas);
  }

  // ---------- the fault model ----------

  ghost function Observers(aos: seq<AttributedObservation>): set<OracleId> {
    set i | 0 <= i < |aos| :: aos[i].oracle
  }

  /** While prices are in flight an honest oracle makes no price observation at all, and otherwise
      none of the round on chain. */
  ghost predicate Honest(prev: MainOutcome, obs: Observation) {
    && (prev.inflight > 0 ==> obs.tokenFChain == map[] && obs.feeFChain == map[])
    && (prev.inflight == 0 ==> obs.onChain == 0)
  }

  /** What an honest oracle observes, given what it can read: the round on chain while prices are in
      flight, prices otherwise. */
  method Observe(prev: MainOutcome, read: Observation) returns (obs: Observation)
    ensures Honest(prev, obs) && obs.fChain == read.fChain
    ensures prev.inflight > 0 ==> obs.onChain == read.onChain
    ensures prev.inflight == 0 ==> obs == read.(onChain := 0)
  {
    obs := Observation(map[], map[], read.fChain, 0);
    if prev.inflight > 0 {
      obs := obs.(onChain := read.onChain);
    } else {
      obs := obs.(tokenFChain := read.tokenFChain, feeFChain := read.feeFChain);
    }
  }

  /** Numbered rounds, one observation per oracle, at most F faulty observers. */
  ghost predicate Tolerable(cfg: Config, prev: MainOutcome, round: Round, faulty: set<OracleId>) {
    && round.seqNr > 0
    && (forall i, j :: 0 <= i < j < |round.aos| ==> round.aos[i].oracle != round.aos[j].oracle)
    && |Observers(round.aos) * faulty| <= cfg.f
    && forall i :: 0 <= i < |round.aos| && round.aos[i].oracle !in faulty ==> Honest(prev, round.aos[i].obs)
  }

  /** No f can be agreed on if only faulty oracles name one. */
  lemma NoAgreementAmongFaulty(cfg: Config, bs: seq<Ballot<nat>>, faulty: set<OracleId>, fDest: nat)
    requires OneVoteEach(bs)
    requires |Speakers(bs, cfg.dest) * faulty| <= cfg.f
    requires forall i :: 0 <= i < |bs| && bs[i].oracle !in faulty ==> bs[i].entries == []
    ensures !DestFAgreed(cfg, bs, fDest)
  {
    if DestFAgreed(cfg, bs, fDest) {
      HonestWinner(bs, cfg.dest, TwoFPlus1(cfg.f), fDest, faulty, cfg.f);
    }
  }

  lemma TokenVotes(cfg: Config, prev: MainOutcome, round: Round, faulty: set<OracleId>)
    requires Tolerable(cfg, prev, round, faulty) && prev.inflight > 0
    ensures OneVoteEach(TokenBallots(round.aos))
    ensures |Speakers(TokenBallots(round.aos), cfg.dest) * faulty| <= cfg.f
    ensures forall i :: 0 <= i < |round.aos| && round.aos[i].oracle !in faulty ==>
              TokenBallots(round.aos)[i].entries == []
  {
    forall i | 0 <= i < |round.aos|
      ensures DistinctChains(TokenBallots(round.aos)[i].entries)
      ensures round.aos[i].oracle !in faulty ==> TokenBallots(round.aos)[i].entries == []
    {
      MapEntriesExact(round.aos[i].obs.tokenFChain);
    }
    SubsetSize(Speakers(TokenBallots(round.aos), cfg.dest) * faulty, Observers(round.aos) * faulty);
  }

  lemma FeeVotes(cfg: Config, prev: MainOutcome, round: Round, faulty: set<OracleId>)
    requires Tolerable(cfg, prev, round, faulty) && prev.inflight > 0
    ensures OneVoteEach(FeeBallots(round.aos))
    ensures |Speakers(FeeBallots(round.aos), cfg.dest) * faulty| <= cfg.f
    ensures forall i :: 0 <= i < |round.aos| && round.aos[i].oracle !in faulty ==>
              FeeBallots(round.aos)[i].entries == []
  {
    forall i | 0 <= i < |round.aos|
      ensures DistinctChains(FeeBallots(round.aos)[i].entries)
      ensures round.aos[i].oracle !in faulty ==> FeeBallots(round.aos)[i].entries == []
    {
      MapEntriesExact(round.aos[i].obs.feeFChain);
    }
    SubsetSize(Speakers(FeeBallots(round.aos), cfg.dest) * faulty, Observers(round.aos) * faulty);
  }

  /** While prices are in flight, whatever up to F oracles claim, no token and no gas price is agreed. */
  lemma NoPricesWhileInFlight(cfg: Config, prev: MainOutcome, round: Round, faulty: set<OracleId>, tokens: nat,
                              gas: nat)
    requires Tolerable(cfg, prev, round, faulty) && prev.inflight > 0
    requires IsPriceCount(cfg, TokenBallots(round.aos), round.tokenPrices, tokens)
    requires IsPriceCount(cfg, FeeBallots(round.aos), round.gasPrices, gas)
    ensures tokens == 0 && gas == 0
  {
    TokenVotes(cfg, prev, round, faulty);
    NothingSelected(cfg, TokenBallots(round.aos), faulty, round.tokenPrices, tokens);
    FeeVotes(cfg, prev, round, faulty);
    NothingSelected(cfg, FeeBallots(round.aos), faulty, round.gasPrices, gas);
  }

  lemma NothingSelected(cfg: Config, bs: seq<Ballot<nat>>, faulty: set<OracleId>, selected: nat, count: nat)
    requires OneVoteEach(bs)
    requires |Speakers(bs, cfg.dest) * faulty| <= cfg.f
    requires forall i :: 0 <= i < |bs| && bs[i].oracle !in faulty ==> bs[i].entries == []
    requires IsPriceCount(cfg, bs, selected, count)
    ensures count == 0
  {
    forall f: nat
      ensures !DestFAgreed(cfg, bs, f)
    {
      NoAgreementAmongFaulty(cfg, bs, faulty, f);
    }
  }

  // ---------- runs ----------

  /** outs[k + 1] is the outcome of round k; the run starts with nothing in flight. */
  ghost predicate IsRun(cfg: Config, rounds: seq<Round>, faulty: seq<set<OracleId>>, outs: seq<MainOutcome>) {
    && |outs| == |rounds| + 1 && |faulty| == |rounds|
    && outs[0] == NOTHING
    && forall k :: 0 <= k < |rounds| ==>
         Tolerable(cfg, outs[k], rounds[k], faulty[k]) && Step(cfg, outs[k], rounds[k], outs[k + 1])
  }

  /** What a round can do: nothing in flight, a fresh round in flight if none was, or the awaited
      round with one check less. */
  ghost predicate Link(cfg: Config, prev: MainOutcome, seqNr: SeqNum, out: MainOutcome) {
    || out == NOTHING
    || (prev.inflight == 0 && out == MainOutcome(seqNr, Int32(cfg.retries)))
    || (prev.inflight > 0 && prev.remaining != 0 && out == MainOutcome(prev.inflight, Int32(prev.remaining - 1)))
  }

  lemma MainLink(cfg: Config, prev: MainOutcome, aos: seq<AttributedObservation>, out: MainOutcome, seen: bool)
    requires IsMainOutcome(cfg, prev, aos, out, seen)
    ensures out == NOTHING
            || (prev.inflight > 0 && prev.remaining != 0
                && out == MainOutcome(prev.inflight, Int32(prev.remaining - 1)))
  {
  }

  lemma StepIsLink(cfg: Config, prev: MainOutcome, round: Round, faulty: set<OracleId>, out: MainOutcome)
    requires Tolerable(cfg, prev, round, faulty) && Step(cfg, prev, round, out)
    ensures Link(cfg, prev, round.seqNr, out)
  {
    var main, seen, tokens: nat, gas: nat :|
      && IsMainOutcome(cfg, prev, round.aos, main, seen)
      && IsPriceCount(cfg, TokenBallots(round.aos), round.tokenPrices, tokens)
      && IsPriceCount(cfg, FeeBallots(round.aos), round.gasPrices, gas)
      && out == Recorded(cfg, round.seqNr, main, tokens + gas);
    MainLink(cfg, prev, round.aos, main, seen);
    if prev.inflight > 0 {
      NoPricesWhileInFlight(cfg, prev, round, faulty, tokens, gas);
    }
  }

  lemma RunLinks(cfg: Config, rounds: seq<Round>, faulty: seq<set<OracleId>>, outs: seq<MainOutcome>)
    requires IsRun(cfg, rounds, faulty, outs)
    ensures forall k :: 0 <= k < |rounds| ==> Link(cfg, outs[k], rounds[k].seqNr, outs[k + 1])
  {
    forall k | 0 <= k < |rounds|
      ensures Link(cfg, outs[k], rounds[k].seqNr, outs[k + 1])
    {
      StepIsLink(cfg, outs[k], rounds[k], faulty[k], outs[k + 1]);
    }
  }

  /** Prices in flight are awaited, given up or confirmed, but never replaced by others. */
  lemma InFlightNeverReplaced(cfg: Config, rounds: seq<Round>, faulty: seq<set<OracleId>>, outs: seq<MainOutcome>,
                              k: nat)
    requires IsRun(cfg, rounds, faulty, outs)
    requires k < |rounds| && outs[k].inflight != 0
    ensures outs[k + 1].inflight == 0 || outs[k + 1].inflight == outs[k].inflight
  {
    RunLinks(cfg, rounds, faulty, outs);
  }

  /** How many checks are left before the countdown reaches zero, wrapping included. */
  function Left(out: MainOutcome): nat {
    out.remaining % UINT32_MODULUS
  }

  lemma Countdown(x: int)
    ensures Int32(x) % UINT32_MODULUS == x % UINT32_MODULUS
    ensures Int32(x) == 0 <==> x % UINT32_MODULUS == 0
    ensures x % UINT32_MODULUS != 0 ==> (x - 1) % UINT32_MODULUS == x % UINT32_MODULUS - 1
    ensures 0 <= x < 0x8000_0000 ==> Int32(x) == x
  {
  }

  /** The countdown is a 32-bit number. */
  ghost predicate Encoded(out: MainOutcome) {
    out.remaining == Int32(out.remaining)
  }

  lemma LeftStep(prev: MainOutcome, out: MainOutcome)
    requires Encoded(prev) && prev.remaining != 0
    requires out == MainOutcome(prev.inflight, Int32(prev.remaining - 1))
    ensures Encoded(out) && Left(prev) > 0 && Left(out) == Left(prev) - 1
  {
    Countdown(prev.remaining);
    Countdown(prev.remaining - 1);
  }

  lemma LeftFresh(cfg: Config, out: MainOutcome)
    requires out.remaining == Int32(cfg.retries)
    ensures Encoded(out) && Left(out) == cfg.retries % UINT32_MODULUS
  {
    Countdown(cfg.retries);
  }

  /** What a round does to the countdown. */
  lemma LinkCounts(cfg: Config, prev: MainOutcome, seqNr: SeqNum, out: MainOutcome, limit: nat)
    requires Link(cfg, prev, seqNr, out) && Encoded(prev) && limit == cfg.retries % UINT32_MODULUS
    ensures Encoded(out) && (Left(prev) <= limit ==> Left(out) <= limit)
    ensures prev.inflight != 0 && out.inflight != 0 ==> out.inflight == prev.inflight && Left(out) == Left(prev) - 1
  {
    if out == NOTHING {
    } else if prev.inflight == 0 {
      LeftFresh(cfg, out);
    } else {
      LeftStep(prev, out);
    }
  }

  /** In every outcome of a run the countdown is a 32-bit number with at most R mod 2^32 checks left. */
  lemma {:induction false} LeftBounded(cfg: Config, rounds: seq<Round>, faulty: seq<set<OracleId>>,
                                       outs: seq<MainOutcome>, k: nat, limit: nat)
    requires IsRun(cfg, rounds, faulty, outs) && limit == cfg.retries % UINT32_MODULUS
    requires k < |outs|
    ensures Encoded(outs[k]) && Left(outs[k]) <= limit
    decreases k
  {
    if k > 0 {
      LeftBounded(cfg, rounds, faulty, outs, k - 1, limit);
      StepIsLink(cfg, outs[k - 1], rounds[k - 1], faulty[k - 1], outs[k]);
      LinkCounts(cfg, outs[k - 1], rounds[k - 1].seqNr, outs[k], limit);
    }
  }

  lemma LeftIsRemaining(out: MainOutcome, retries: int)
    requires Encoded(out) && 0 <= retries < 0x8000_0000 && Left(out) <= retries
    ensures 0 <= out.remaining <= retries
  {
  }

  /** With 0 <= R < 2^31 retries the remaining checks stay between zero and R. */
  lemma RemainingBounded(cfg: Config, rounds: seq<Round>, faulty: seq<set<OracleId>>, outs: seq<MainOutcome>, k: nat)
    requires IsRun(cfg, rounds, faulty, outs) && 0 <= cfg.retries < 0x8000_0000
    requires k < |outs|
    ensures 0 <= outs[k].remaining <= cfg.retries
  {
    LeftBounded(cfg, rounds, faulty, outs, k, cfg.retries);
    LeftIsRemaining(outs[k], cfg.retries);
  }

  ghost predicate InFlightThroughout(outs: seq<MainOutcome>, i: nat, n: nat)
    requires i + n < |outs|
  {
    forall k :: i <= k <= i + n ==> outs[k].inflight != 0
  }

  /** While something stays in flight it is the same round's prices, and every outcome spends a check. */
  lemma {:induction false} ChecksCountDown(cfg: Config, rounds: seq<Round>, faulty: seq<set<OracleId>>,
                                           outs: seq<MainOutcome>, i: nat, n: nat)
    requires IsRun(cfg, rounds, faulty, outs)
    requires i + n < |outs| && InFlightThroughout(outs, i, n)
    ensures outs[i + n].inflight == outs[i].inflight
    ensures Left(outs[i + n]) == Left(outs[i]) - n
    decreases n
  {
    if n > 0 {
      ChecksCountDown(cfg, rounds, faulty, outs, i, n - 1);
      var k := i + n - 1;
      var limit := cfg.retries % UINT32_MODULUS;
      StepIsLink(cfg, outs[k], rounds[k], faulty[k], outs[k + 1]);
      LeftBounded(cfg, rounds, faulty, outs, k, limit);
      LinkCounts(cfg, outs[k], rounds[k].seqNr, outs[k + 1], limit);
    }
  }

  /** No price stays in flight for more than (R mod 2^32) + 1 consecutive outcomes, which for
      0 <= R < 2^32 is R + 1. */
  lemma InFlightIsBounded(cfg: Config, rounds: seq<Round>, faulty: seq<set<OracleId>>, outs: seq<MainOutcome>,
                          i: nat, n: nat)
    requires IsRun(cfg, rounds, faulty, outs)
    requires i + n < |outs| && InFlightThroughout(outs, i, n)
    ensures n <= cfg.retries % UINT32_MODULUS
  {
    ChecksCountDown(cfg, rounds, faulty, outs, i, n);
    LeftBounded(cfg, rounds, faulty, outs, i, cfg.retries % UINT32_MODULUS);
  }
}
