/** What the consensus on messages and hashes is worth in rounds with faulty oracles. */
module ExecMessageSafety {
  import opened CcipTypes
  import opened Sorting
  import opened Votes
  import opened ExecTypes
  import opened ExecValidation
  import opened ExecRounds
  import opened ExecMessageConsensus
  import Hashes = ExecHashConsensus
  import Obs = ExecObservation
  import Filling = ExecFilling
  import NestedMaps

  // ---------- who votes ----------

  lemma VoterHasMessages(supported: set<ChainSelector>, msgs: MessageObservations, c: ChainSelector, m: Message)
    requires ReadingEligible(supported, msgs) && CastsFor(On(msgs, c), m)
    ensures c in supported
  {
    var k :| k in On(msgs, c) && VoteFor(On(msgs, c)[k], m);
    assert msgs[c] != map[];
  }

  /** Only readers of the chain vote for messages. */
  lemma FaultyVotersRead(don: Don, round: Round, c: ChainSelector, m: Message)
    requires MessagesRound(don, round)
    ensures Voters(round.aos, c, m) * round.faulty <= FaultyReaders(round, c)
  {
    forall i | 0 <= i < |round.aos| && CastsFor(On(round.aos[i].obs.messages, c), m)
      ensures round.aos[i].oracle in round.supports && c in round.supports[round.aos[i].oracle]
    {
      assert ValidMessagesObservation(round.supports[round.aos[i].oracle], round.aos[i].obs);
      VoterHasMessages(round.supports[round.aos[i].oracle], round.aos[i].obs.messages, c, m);
    }
  }

  lemma FewFaultyVoters(don: Don, round: Round, fChain: map<ChainSelector, nat>, c: ChainSelector, m: Message)
    requires MessagesRound(don, round) && IsFChain(don, round.aos, fChain) && c in fChain
    ensures |Voters(round.aos, c, m) * round.faulty| <= fChain[c]
  {
    AgreedFIsHomeF(don, round, fChain, c);
    FaultyVotersRead(don, round, c, m);
    SubsetSize(Voters(round.aos, c, m) * round.faulty, FaultyReaders(round, c));
  }

  /** Oracle i is honest and reports, under key k, a message that votes for m. */
  ghost predicate HonestVoteFor(round: Round, c: ChainSelector, m: Message, i: int, k: SeqNum) {
    && 0 <= i < |round.aos| && round.aos[i].oracle !in round.faulty
    && c in round.aos[i].obs.messages && k in round.aos[i].obs.messages[c]
    && VoteFor(round.aos[i].obs.messages[c][k], m)
  }

  lemma HonestVoter(round: Round, c: ChainSelector, f: nat, m: Message)
    requires |Voters(round.aos, c, m) * round.faulty| <= f && Wins(round.aos, c, f, m)
    ensures exists i, k :: HonestVoteFor(round, c, m, i, k)
  {
    var voters := Voters(round.aos, c, m);
    HonestRemainder(voters, round.faulty, f);
    assert |voters - round.faulty| > 0;
    var o :| o in voters - round.faulty;
    var i :| 0 <= i < |round.aos| && CastsFor(On(round.aos[i].obs.messages, c), m) && round.aos[i].oracle == o;
    var msgs := On(round.aos[i].obs.messages, c);
    var k :| k in msgs && VoteFor(msgs[k], m);
    assert HonestVoteFor(round, c, m, i, k);
  }

  /** Whatever wins has an honest voter. */
  lemma WinnerHasHonestVote(don: Don, round: Round, fChain: map<ChainSelector, nat>, c: ChainSelector, m: Message)
    requires MessagesRound(don, round) && IsFChain(don, round.aos, fChain) && c in fChain
    requires Wins(round.aos, c, fChain[c], m)
    ensures exists i, k :: HonestVoteFor(round, c, m, i, k)
  {
    FewFaultyVoters(don, round, fChain, c, m);
    HonestVoter(round, c, fChain[c], m);
  }

  // ---------- messages ----------

  /** An honest oracle vouches for every message in the consensus. */
  lemma ChosenHasHonestVote(don: Don, round: Round, fChain: map<ChainSelector, nat>, r: MessageObservations,
                            c: ChainSelector, s: SeqNum)
    requires MessagesRound(don, round) && IsFChain(don, round.aos, fChain)
    requires IsMessageConsensus(round.aos, fChain, r) && c in r && s in r[c]
    ensures r[c][s].seqNum == s
    ensures exists i, k :: HonestVoteFor(round, c, r[c][s], i, k)
  {
    ChosenExactly(round.aos, fChain[c], c, s, r[c][s]);
    WinnerHasHonestVote(don, round, fChain, c, r[c][s]);
  }

  /** Honest oracle i reports m on chain c under some key. */
  ghost predicate HonestlyHas(round: Round, c: ChainSelector, i: int, m: Message) {
    && 0 <= i < |round.aos| && round.aos[i].oracle !in round.faulty && c in round.aos[i].obs.messages
    && m in round.aos[i].obs.messages[c].Values
  }

  /** The honest oracles report x under number s, or its stub, or nothing. */
  ghost predicate HonestAgree(round: Round, c: ChainSelector, s: SeqNum, x: Message) {
    forall i, m :: HonestlyHas(round, c, i, m) && m.seqNum == s ==> m == x || m == Stub(x)
  }

  lemma HonestVoteIsTrue(round: Round, c: ChainSelector, s: SeqNum, x: Message, w: Message, i: int, k: SeqNum)
    requires HonestAgree(round, c, s, x) && HonestVoteFor(round, c, w, i, k) && w.seqNum == s
    ensures w == x || w == Stub(x)
  {
    assert HonestlyHas(round, c, i, round.aos[i].obs.messages[c][k]);
  }

  lemma OnlyTheTruthWins(don: Don, round: Round, fChain: map<ChainSelector, nat>, c: ChainSelector, s: SeqNum,
                         x: Message, w: Message)
    requires MessagesRound(don, round) && IsFChain(don, round.aos, fChain) && c in fChain
    requires HonestAgree(round, c, s, x) && Wins(round.aos, c, fChain[c], w) && w.seqNum == s
    ensures w == x || w == Stub(x)
  {
    WinnerHasHonestVote(don, round, fChain, c, w);
    var i, k :| HonestVoteFor(round, c, w, i, k);
    HonestVoteIsTrue(round, c, s, x, w, i, k);
  }

  /** If the honest oracles agree on x, the outcome is decided by counting alone, whatever the faulty
      ones add: x with f + 1 votes for x, its stub with f + 1 votes for the stub but not for x, and
      otherwise nothing. */
  lemma HonestAgreementDecides(don: Don, round: Round, fChain: map<ChainSelector, nat>, c: ChainSelector, s: SeqNum,
                               x: Message, m: Message)
    requires MessagesRound(don, round) && IsFChain(don, round.aos, fChain) && c in fChain
    requires HonestAgree(round, c, s, x) && x.seqNum == s && !x.IsPseudoDeleted()
    ensures Chosen(round.aos, fChain[c], c, s, m) <==>
            Wins(round.aos, c, fChain[c], Stub(x)) && m == if Wins(round.aos, c, fChain[c], x) then x else Stub(x)
  {
    var f := fChain[c];
    ChosenExactly(round.aos, f, c, s, m);
    StubHasMoreVoters(round.aos, c, x);
    forall w | Wins(round.aos, c, f, w) && w.seqNum == s
      ensures w == x || w == Stub(x)
    {
      OnlyTheTruthWins(don, round, fChain, c, s, x, w);
    }
  }

  /** Every honest oracle has built its observation from what it could read, and whatever any of them
      reads under number s of chain c is x. */
  ghost predicate HonestReaders(round: Round, envs: seq<Obs.Environment>, c: ChainSelector, s: SeqNum, x: Message) {
    && |envs| == |round.aos|
    && forall i :: 0 <= i < |round.aos| && round.aos[i].oracle !in round.faulty ==>
         && Filling.Honest(envs[i], round.aos[i].obs)
         && forall y :: Filling.Read(envs[i], c, y) && y.seqNum == s ==> y == x
  }

  lemma ReaderReports(env: Obs.Environment, obs: Observation, c: ChainSelector, s: SeqNum, k: SeqNum, x: Message)
    requires Filling.Honest(env, obs) && forall y :: Filling.Read(env, c, y) && y.seqNum == s ==> y == x
    requires c in obs.messages && k in obs.messages[c] && obs.messages[c][k].seqNum == s
    ensures obs.messages[c][k] == x || obs.messages[c][k] == Stub(x)
  {
    Filling.GoodHasEntry(env, obs, c, k);
    assert Filling.Sourced(env, c, k, obs.messages[c][k], obs.hashes[c][k], obs.tokenData[c][k]);
    var y :| Filling.Read(env, c, y) && (obs.messages[c][k] == y || obs.messages[c][k] == Stub(y));
  }

  /** Observations that the honest oracles have built from the same messages agree, however each of
      them was cut off: so the consensus is the message itself or its stub. */
  lemma ReadersAgree(don: Don, round: Round, fChain: map<ChainSelector, nat>, envs: seq<Obs.Environment>,
                     c: ChainSelector, s: SeqNum, x: Message, m: Message)
    requires MessagesRound(don, round) && IsFChain(don, round.aos, fChain) && c in fChain
    requires HonestReaders(round, envs, c, s, x) && x.seqNum == s && !x.IsPseudoDeleted()
    ensures HonestAgree(round, c, s, x)
    ensures Chosen(round.aos, fChain[c], c, s, m) ==> m == x || m == Stub(x)
  {
    forall i, y | HonestlyHas(round, c, i, y) && y.seqNum == s
      ensures y == x || y == Stub(x)
    {
      var k :| k in round.aos[i].obs.messages[c] && round.aos[i].obs.messages[c][k] == y;
      ReaderReports(envs[i], round.aos[i].obs, c, s, k, x);
    }
    HonestAgreementDecides(don, round, fChain, c, s, x, m);
  }

  // ---------- hashes ----------

  /** Hashes come with messages, so only readers of the chain vote for them. */
  lemma FaultyHashersRead(don: Don, round: Round, p: Hashes.Place, h: Bytes32)
    requires MessagesRound(don, round)
    ensures Hashes.HashVoters(round.aos, p, h) * round.faulty <= FaultyReaders(round, p.0)
  {
    forall i | 0 <= i < |round.aos| && Hashes.Reports(round.aos[i].obs.hashes, p, h)
      ensures round.aos[i].oracle in round.supports && p.0 in round.supports[round.aos[i].oracle]
    {
      assert ValidMessagesObservation(round.supports[round.aos[i].oracle], round.aos[i].obs);
      assert p.1 in round.aos[i].obs.messages[p.0];
    }
  }

  /** If all honest oracles that report a hash at p report h, the consensus there is h with f + 1 votes
      and nothing without: faulty oracles can neither replace nor suppress it. */
  lemma HonestHashDecides(don: Don, round: Round, fChain: map<ChainSelector, nat>, r: MessageHashes, p: Hashes.Place,
                          h: Bytes32)
    requires MessagesRound(don, round) && IsFChain(don, round.aos, fChain) && p.0 in fChain
    requires Hashes.IsHashConsensus(round.aos, fChain, r)
    requires forall i, g: Bytes32 ::
               (&& 0 <= i < |round.aos| && round.aos[i].oracle !in round.faulty
                && Hashes.Reports(round.aos[i].obs.hashes, p, g)) ==>
                 g == h
    ensures NestedMaps.At(r, p) ==
            if Hashes.HashVotes(round.aos, p, h) >= fChain[p.0] + 1 then Some(h) else None
  {
    AgreedFIsHomeF(don, round, fChain, p.0);
    forall g: Bytes32
      ensures |Hashes.HashVoters(round.aos, p, g) * round.faulty| <= fChain[p.0]
    {
      FaultyHashersRead(don, round, p, g);
      SubsetSize(Hashes.HashVoters(round.aos, p, g) * round.faulty, FaultyReaders(round, p.0));
    }
    Hashes.HonestDecide(round.aos, fChain, r, p, round.faulty, h);
  }
}
