/** What the check of prices in flight is worth. Nothing checks who votes about the round on chain, so all
    faulty oracles may. */
module PriceQuorum {
  import opened CcipTypes
  import opened Sorting
  import opened Votes
  import opened Consensus
  import opened Agreement
  import opened Prices
  import opened PriceWaits

  /** A round that waits for prices, with f agreed for the destination and n votes about the round on
      chain: at most F faulty observers, at most f faulty readers of the destination, and only readers
      among the honest oracles vote. */
  ghost predicate WaitingRound(cfg: Config, prev: MainOutcome, round: Round, readers: set<OracleId>,
                               faulty: set<OracleId>, f: nat, n: nat) {
    && prev.inflight > 0 && prev.remaining != 0
    && Tolerable(cfg, prev, round, faulty) && |readers * faulty| <= f
    && (forall i :: 0 <= i < |round.aos| && round.aos[i].oracle !in faulty + readers ==> round.aos[i].obs.onChain == 0)
    && DestFAgreed(cfg, FChainBallots(round.aos), f)
    && |Pooled(OnChainBallots(cfg.dest, round.aos), cfg.dest)| == n
  }

  /** An honest oracle has seen a round on chain that is not older than s. */
  ghost predicate SeenAtLeast(aos: seq<AttributedObservation>, faulty: set<OracleId>, s: SeqNum) {
    exists i :: 0 <= i < |aos| && aos[i].oracle !in faulty && aos[i].obs.onChain >= s
  }

  /** An honest oracle has seen a round on chain that is older than s. */
  ghost predicate SeenBelow(aos: seq<AttributedObservation>, faulty: set<OracleId>, s: SeqNum) {
    exists i :: 0 <= i < |aos| && aos[i].oracle !in faulty && 0 < aos[i].obs.onChain < s
  }

  /** With n votes, prices are only ever kept in flight if an honest oracle still sees an older round. */
  ghost predicate KeptIsTrue(F: nat, f: nat, n: nat) {
    forall cfg: Config, prev: MainOutcome, round: Round, readers: set<OracleId>, faulty: set<OracleId>,
      out: MainOutcome ::
      cfg.f == F && WaitingRound(cfg, prev, round, readers, faulty, f, n)
      && IsMainOutcome(cfg, prev, round.aos, out, false) ==>
        SeenBelow(round.aos, faulty, prev.inflight)
  }

  /** With n votes, prices only ever count as on chain if an honest oracle has seen them there. */
  ghost predicate SeenIsTrue(F: nat, f: nat, n: nat) {
    forall cfg: Config, prev: MainOutcome, round: Round, readers: set<OracleId>, faulty: set<OracleId>,
      out: MainOutcome ::
      cfg.f == F && WaitingRound(cfg, prev, round, readers, faulty, f, n)
      && IsMainOutcome(cfg, prev, round.aos, out, true) ==>
        SeenAtLeast(round.aos, faulty, prev.inflight)
  }

  // ---------- when the check can be trusted ----------

  lemma AgreedOnce(cfg: Config, bs: seq<Ballot<nat>>, f: nat, g: nat)
    requires DestFAgreed(cfg, bs, f) && DestFAgreed(cfg, bs, g)
    ensures f == g
  {
  }

  lemma OnChainVotes(dest: ChainSelector, aos: seq<AttributedObservation>)
    requires forall i, j :: 0 <= i < j < |aos| ==> aos[i].oracle != aos[j].oracle
    ensures OneVoteEach(OnChainBallots(dest, aos))
    ensures Speakers(OnChainBallots(dest, aos), dest) <= Observers(aos)
  {
  }

  lemma HonestBallots(dest: ChainSelector, aos: seq<AttributedObservation>, faulty: set<OracleId>, v: SeqNum)
    ensures v < MAX_SEQ_NUM && HonestAtMost(OnChainBallots(dest, aos), dest, faulty, v) ==>
              SeenBelow(aos, faulty, v + 1)
    ensures HonestAtLeast(OnChainBallots(dest, aos), dest, faulty, v) ==> SeenAtLeast(aos, faulty, v)
  {
    var bs := OnChainBallots(dest, aos);
    forall i, k | HonestVote(bs, dest, faulty, i, k)
      ensures aos[i].oracle !in faulty && bs[i].entries[k].1 == aos[i].obs.onChain > 0
    {
    }
  }

  lemma SeenLess(aos: seq<AttributedObservation>, faulty: set<OracleId>, s: SeqNum, t: SeqNum)
    requires s <= t
    ensures SeenBelow(aos, faulty, s) ==> SeenBelow(aos, faulty, t)
    ensures SeenAtLeast(aos, faulty, t) ==> SeenAtLeast(aos, faulty, s)
  {
  }

  lemma CheckedPick(cfg: Config, prev: MainOutcome, round: Round, readers: set<OracleId>, faulty: set<OracleId>,
                    f: nat, n: nat, out: MainOutcome, seen: bool)
    requires f < n && WaitingRound(cfg, prev, round, readers, faulty, f, n)
    requires IsMainOutcome(cfg, prev, round.aos, out, seen)
    ensures seen <==> Sort(Pooled(OnChainBallots(cfg.dest, round.aos), cfg.dest))[f] >= prev.inflight
  {
    var votes := Pooled(OnChainBallots(cfg.dest, round.aos), cfg.dest);
    assert exists g: nat ::
        DestFAgreed(cfg, FChainBallots(round.aos), g) && g < |votes| && IsCheck(prev, votes, g, out, seen);
    var g: nat :| DestFAgreed(cfg, FChainBallots(round.aos), g) && g < |votes| && IsCheck(prev, votes, g, out, seen);
    AgreedOnce(cfg, FChainBallots(round.aos), f, g);
  }

  lemma CheckIsTrue(cfg: Config, prev: MainOutcome, round: Round, readers: set<OracleId>, faulty: set<OracleId>,
                    f: nat, n: nat, out: MainOutcome, seen: bool)
    requires f < n && WaitingRound(cfg, prev, round, readers, faulty, f, n)
    requires IsMainOutcome(cfg, prev, round.aos, out, seen)
    ensures !seen && cfg.f <= f ==> SeenBelow(round.aos, faulty, prev.inflight)
    ensures seen && n >= f + cfg.f + 1 ==> SeenAtLeast(round.aos, faulty, prev.inflight)
  {
    var bs := OnChainBallots(cfg.dest, round.aos);
    var pick := Sort(Pooled(bs, cfg.dest))[f];
    CheckedPick(cfg, prev, round, readers, faulty, f, n, out, seen);
    OnChainVotes(cfg.dest, round.aos);
    SubsetSize(Speakers(bs, cfg.dest) * faulty, Observers(round.aos) * faulty);
    HonestBounds(bs, cfg.dest, faulty, f, cfg.f);
    HonestBallots(cfg.dest, round.aos, faulty, pick);
    if seen {
      SeenLess(round.aos, faulty, prev.inflight, pick);
    } else {
      SeenLess(round.aos, faulty, pick + 1, prev.inflight);
    }
  }

  // ---------- when it cannot ----------

  /** Oracle i: all of them name f for the destination; the first k vote for round 1, the others up to n
      for round 2, and the rest do not vote. */
  function Voter(f: nat, n: nat, k: nat, i: nat): AttributedObservation {
    var fChain: map<ChainSelector, nat> := map[DEST := f];
    AttributedObservation(i, Observation(map[], map[], fChain, if i >= n then 0 else if i < k then 1 else 2))
  }

  /** Round 7 with n voters and enough others to agree on f, in which the prices of round 2 are awaited. */
  function SplitRound(F: nat, f: nat, n: nat, k: nat): Round {
    Round(7, seq(n + 2 * F + 1, i requires 0 <= i < n + 2 * F + 1 => Voter(f, n, k, i)), 0, 0)
  }

  const AWAITED := MainOutcome(2, 1)

  lemma SplitRoundF(cfg: Config, f: nat, n: nat, k: nat)
    requires cfg.dest == DEST
    ensures DestFAgreed(cfg, FChainBallots(SplitRound(cfg.f, f, n, k).aos), f)
  {
    var bs := FChainBallots(SplitRound(cfg.f, f, n, k).aos);
    SingletonEntries(map[DEST := f], f);
    UnanimousPool(bs, [(DEST, f)], DEST);
    ConstantAgreed(Pooled(bs, DEST), TwoFPlus1(cfg.f), f);
  }

  lemma SplitRoundVotes(F: nat, f: nat, n: nat, k: nat)
    requires k <= n
    ensures Pooled(OnChainBallots(DEST, SplitRound(F, f, n, k).aos), DEST) == Pooled(Blocks(n, k, DEST), DEST)
  {
    var bs := OnChainBallots(DEST, SplitRound(F, f, n, k).aos);
    assert bs[..n] == Blocks(n, k, DEST);
    assert bs == bs[..n] + bs[n..];
    EmptyBallots(bs[..n], bs[n..], DEST);
  }

  lemma SplitRoundIsTolerable(cfg: Config, f: nat, n: nat, k: nat, lo: nat, hi: nat)
    requires k <= n && lo <= hi <= n && hi - lo <= cfg.f
    ensures Tolerable(cfg, AWAITED, SplitRound(cfg.f, f, n, k), Span(lo, hi))
  {
    var aos := SplitRound(cfg.f, f, n, k).aos;
    SubsetSize(Observers(aos) * Span(lo, hi), Span(lo, hi));
    assert forall i :: 0 <= i < |aos| ==> aos[i] == Voter(f, n, k, i);
  }

  lemma SplitRoundReaders(F: nat, f: nat, n: nat, k: nat, lo: nat, hi: nat)
    requires lo <= hi <= n
    ensures |(Span(0, n) - Span(lo, hi)) * Span(lo, hi)| <= f
    ensures forall i :: 0 <= i < n + 2 * F + 1 ==> SplitRound(F, f, n, k).aos[i] == Voter(f, n, k, i)
    ensures forall o :: o in Span(lo, hi) + (Span(0, n) - Span(lo, hi)) <==> 0 <= o < n
  {
    assert (Span(0, n) - Span(lo, hi)) * Span(lo, hi) == {};
  }

  /** The oracles from lo to hi - 1 are faulty and do not read the destination; the other voters do. */
  lemma SplitRoundIsWaiting(cfg: Config, f: nat, n: nat, k: nat, lo: nat, hi: nat)
    requires cfg.dest == DEST && k <= n && f < n && lo <= hi <= n && hi - lo <= cfg.f
    ensures WaitingRound(cfg, AWAITED, SplitRound(cfg.f, f, n, k), Span(0, n) - Span(lo, hi), Span(lo, hi), f, n)
  {
    SplitRoundIsTolerable(cfg, f, n, k, lo, hi);
    SplitRoundF(cfg, f, n, k);
    SplitRoundVotes(cfg.f, f, n, k);
    BlocksPick(n, k, DEST, f);
    SplitRoundReaders(cfg.f, f, n, k, lo, hi);
  }

  lemma SplitRoundOutcome(cfg: Config, f: nat, n: nat, k: nat, aos: seq<AttributedObservation>)
    requires cfg.dest == DEST && k <= n && f < n && aos == SplitRound(cfg.f, f, n, k).aos
    ensures f < k ==> IsMainOutcome(cfg, AWAITED, aos, MainOutcome(2, 0), false)
    ensures f >= k ==> IsMainOutcome(cfg, AWAITED, aos, NOTHING, true)
  {
    SplitRoundF(cfg, f, n, k);
    SplitRoundVotes(cfg.f, f, n, k);
    BlocksPick(n, k, DEST, f);
    var votes := Pooled(OnChainBallots(DEST, aos), DEST);
    if f < k {
      assert IsCheck(AWAITED, votes, f, MainOutcome(2, 0), false);
    } else {
      assert IsCheck(AWAITED, votes, f, NOTHING, true);
    }
  }

  lemma HonestVotesAreNew(F: nat, f: nat, n: nat, aos: seq<AttributedObservation>)
    requires f < n && aos == SplitRound(F, f, n, f + 1).aos
    ensures !SeenBelow(aos, Span(0, f + 1), AWAITED.inflight)
  {
    assert forall i :: 0 <= i < |aos| ==> aos[i] == Voter(f, n, f + 1, i);
  }

  lemma HonestVotesAreOld(F: nat, f: nat, n: nat, aos: seq<AttributedObservation>)
    requires f < n && aos == SplitRound(F, f, n, f).aos
    ensures !SeenAtLeast(aos, Span(f, n), AWAITED.inflight)
  {
    assert forall i :: 0 <= i < |aos| ==> aos[i] == Voter(f, n, f, i);
  }

  /** With F > f, f + 1 faulty votes for round 1 keep the prices of round 2 in flight, although every
      honest vote is for round 2. */
  lemma FaultyKeep(cfg: Config, f: nat, n: nat)
    requires cfg.dest == DEST && f < n && cfg.f > f
    ensures WaitingRound(cfg, AWAITED, SplitRound(cfg.f, f, n, f + 1), Span(0, n) - Span(0, f + 1), Span(0, f + 1),
                         f, n)
    ensures IsMainOutcome(cfg, AWAITED, SplitRound(cfg.f, f, n, f + 1).aos, MainOutcome(2, 0), false)
    ensures !SeenBelow(SplitRound(cfg.f, f, n, f + 1).aos, Span(0, f + 1), AWAITED.inflight)
  {
    SplitRoundIsWaiting(cfg, f, n, f + 1, 0, f + 1);
    SplitRoundOutcome(cfg, f, n, f + 1, SplitRound(cfg.f, f, n, f + 1).aos);
    HonestVotesAreNew(cfg.f, f, n, SplitRound(cfg.f, f, n, f + 1).aos);
  }

  /** With f + 1 to f + F votes, n - f faulty votes for round 2 confirm it, although every honest vote is
      for round 1. */
  lemma FaultyConfirm(cfg: Config, f: nat, n: nat)
    requires cfg.dest == DEST && f < n < f + cfg.f + 1
    ensures WaitingRound(cfg, AWAITED, SplitRound(cfg.f, f, n, f), Span(0, n) - Span(f, n), Span(f, n), f, n)
    ensures IsMainOutcome(cfg, AWAITED, SplitRound(cfg.f, f, n, f).aos, NOTHING, true)
    ensures !SeenAtLeast(SplitRound(cfg.f, f, n, f).aos, Span(f, n), AWAITED.inflight)
  {
    SplitRoundIsWaiting(cfg, f, n, f, f, n);
    SplitRoundOutcome(cfg, f, n, f, SplitRound(cfg.f, f, n, f).aos);
    HonestVotesAreOld(cfg.f, f, n, SplitRound(cfg.f, f, n, f).aos);
  }

  /** That prices are kept can be trusted exactly if F <= f, for any number of votes. */
  lemma KeptIsTrueExactly(F: nat, f: nat, n: nat)
    requires f < n
    ensures KeptIsTrue(F, f, n) <==> F <= f
  {
    if F <= f {
      forall cfg: Config, prev: MainOutcome, round: Round, readers: set<OracleId>, faulty: set<OracleId>,
             out: MainOutcome
        | cfg.f == F && WaitingRound(cfg, prev, round, readers, faulty, f, n)
          && IsMainOutcome(cfg, prev, round.aos, out, false)
        ensures SeenBelow(round.aos, faulty, prev.inflight)
      {
        CheckIsTrue(cfg, prev, round, readers, faulty, f, n, out, false);
      }
    } else {
      FaultyKeep(Config(F, DEST, 1), f, n);
    }
  }

  /** That prices are on chain can be trusted exactly from f + F + 1 votes on. */
  lemma SeenIsTrueExactly(F: nat, f: nat, n: nat)
    requires f < n
    ensures SeenIsTrue(F, f, n) <==> n >= f + F + 1
  {
    if n >= f + F + 1 {
      forall cfg: Config, prev: MainOutcome, round: Round, readers: set<OracleId>, faulty: set<OracleId>,
             out: MainOutcome
        | cfg.f == F && WaitingRound(cfg, prev, round, readers, faulty, f, n)
          && IsMainOutcome(cfg, prev, round.aos, out, true)
        ensures SeenAtLeast(round.aos, faulty, prev.inflight)
      {
        CheckIsTrue(cfg, prev, round, readers, faulty, f, n, out, true);
      }
    } else {
      FaultyConfirm(Config(F, DEST, 1), f, n);
    }
  }
}
