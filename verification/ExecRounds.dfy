/** Rounds of the execute plugin under the fault model. */
module ExecRounds {
  import opened CcipTypes
  import opened Sorting
  import opened Votes
  import opened Consensus
  import opened Agreement
  import opened ExecTypes
  import opened ExecValidation
  import Commits = ExecCommitVotes

  /** The bound F on faulty oracles of the DON, and the destination. */
  datatype Don = Don(f: nat, dest: ChainSelector)

  /** One round: the observations, which oracles may lie, who may read which chain, and the f that the
      home chain configures per chain. */
  datatype Round = Round(
    aos: seq<AttributedObservation>,
    faulty: set<OracleId>,
    supports: map<OracleId, set<ChainSelector>>,
    homeF: map<ChainSelector, nat>)

  ghost function Observers(aos: seq<AttributedObservation>): set<OracleId> {
    set i | 0 <= i < |aos| :: aos[i].oracle
  }

  /** The faulty oracles that may read chain c. */
  ghost function FaultyReaders(round: Round, c: ChainSelector): set<OracleId> {
    set o | o in round.supports && o in round.faulty && c in round.supports[o]
  }

  /** The observation names no f but the home chain's. */
  ghost predicate NamesHomeF(homeF: map<ChainSelector, nat>, obs: Observation) {
    forall c :: c in obs.fChain ==> c in homeF && obs.fChain[c] == homeF[c]
  }

  /** The fault model: one observation per oracle, at most F faulty observers, at most homeF[c] faulty
      readers of chain c, and honest oracles name the home chain's f. */
  ghost predicate Tolerable(don: Don, round: Round) {
    && DistinctOracles(round.aos)
    && (forall i :: 0 <= i < |round.aos| ==> round.aos[i].oracle in round.supports)
    && |Observers(round.aos) * round.faulty| <= don.f
    && (forall c :: c in round.homeF ==> |FaultyReaders(round, c)| <= round.homeF[c])
    && forall i :: 0 <= i < |round.aos| && round.aos[i].oracle !in round.faulty ==>
         NamesHomeF(round.homeF, round.aos[i].obs)
  }

  /** A round on commit reports: the checks accept all observations, and honest oracles that do not read
      the destination observe nothing. */
  ghost predicate CommitsRound(don: Don, round: Round) {
    && Tolerable(don, round)
    && (forall i :: 0 <= i < |round.aos| ==>
          ValidCommitsObservation(round.supports[round.aos[i].oracle], don.dest, round.aos[i].obs))
    && forall i :: 0 <= i < |round.aos| && round.aos[i].oracle !in round.faulty ==>
         don.dest in round.supports[round.aos[i].oracle] || round.aos[i].obs.commitReports == map[]
  }

  /** A round on messages: the checks accept all observations. */
  ghost predicate MessagesRound(don: Don, round: Round) {
    && Tolerable(don, round)
    && forall i :: 0 <= i < |round.aos| ==>
         ValidMessagesObservation(round.supports[round.aos[i].oracle], round.aos[i].obs)
  }

  /** An honest oracle reports the root. */
  ghost predicate HonestlyReported(round: Round, k: Commits.RootData) {
    exists i :: 0 <= i < |round.aos| && round.aos[i].oracle !in round.faulty
                && Commits.Backs(round.aos[i].obs.commitReports, k, None)
  }

  // ---------- the agreed f ----------

  function FChainBallots(aos: seq<AttributedObservation>): seq<Ballot<nat>> {
    seq(|aos|, i requires 0 <= i < |aos| => Ballot(aos[i].oracle, MapEntries(aos[i].obs.fChain)))
  }

  /** fChain is the agreed f of every chain: at least 2F + 1 oracles name it. */
  ghost predicate IsFChain(don: Don, aos: seq<AttributedObservation>, fChain: map<ChainSelector, nat>) {
    IsAgreement(FChainBallots(aos), ConstantThreshold(TwoFPlus1(don.f)), fChain)
  }

  method GetConsensusFChain(don: Don, aos: seq<AttributedObservation>) returns (fChain: map<ChainSelector, nat>)
    ensures IsFChain(don, aos, fChain)
  {
    fChain := AgreePerChain(FChainBallots(aos), ConstantThreshold(TwoFPlus1(don.f)));
  }

  lemma FChainVotes(aos: seq<AttributedObservation>, c: ChainSelector)
    requires DistinctOracles(aos)
    ensures OneVoteEach(FChainBallots(aos)) && Speakers(FChainBallots(aos), c) <= Observers(aos)
  {
    forall i | 0 <= i < |aos|
      ensures DistinctChains(FChainBallots(aos)[i].entries)
    {
      MapEntriesExact(aos[i].obs.fChain);
    }
  }

  lemma HonestFVote(don: Don, round: Round, c: ChainSelector, v: nat, o: OracleId)
    requires Tolerable(don, round) && o in VotersFor(FChainBallots(round.aos), c, v) - round.faulty
    ensures c in round.homeF && v == round.homeF[c]
  {
    var bs := FChainBallots(round.aos);
    var i, k :| 0 <= i < |bs| && 0 <= k < |bs[i].entries| && bs[i].entries[k] == (c, v) && bs[i].oracle == o;
    EntryOfMap(round.aos[i].obs.fChain, bs[i].entries, k, c, v);
    assert NamesHomeF(round.homeF, round.aos[i].obs);
  }

  /** The agreed f of a chain is the one the home chain configures. */
  lemma AgreedFIsHomeF(don: Don, round: Round, fChain: map<ChainSelector, nat>, c: ChainSelector)
    requires Tolerable(don, round) && IsFChain(don, round.aos, fChain) && c in fChain
    ensures c in round.homeF && fChain[c] == round.homeF[c]
  {
    var bs := FChainBallots(round.aos);
    FChainVotes(round.aos, c);
    SubsetSize(Speakers(bs, c) * round.faulty, Observers(round.aos) * round.faulty);
    HonestWinner(bs, c, TwoFPlus1(don.f), fChain[c], round.faulty, don.f);
    assert |VotersFor(bs, c, fChain[c]) - round.faulty| > 0;
    var o :| o in VotersFor(bs, c, fChain[c]) - round.faulty;
    HonestFVote(don, round, c, fChain[c], o);
  }
}
