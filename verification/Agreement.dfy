/** Consensus on a value per chain, as a function of the ballots: what the aggregation and counting
    code computes, whatever order the maps are walked in. */
module Agreement {
  import opened CcipTypes
  import opened Sorting
  import opened Votes
  import opened Consensus

  /** r holds v for c exactly when c has a threshold and v alone reached it. */
  ghost predicate IsAgreement<V(!new)>(bs: seq<Ballot<V>>, th: MultiThreshold<ChainSelector>,
                                       r: map<ChainSelector, V>) {
    && (forall c :: c in r ==> th.Get(c).Some? && Agreed(Pooled(bs, c), th.Get(c).value, r[c]))
    && forall c, v :: th.Get(c).Some? && Agreed(Pooled(bs, c), th.Get(c).value, v) ==> c in r
  }

  lemma AgreementHas<V(!new)>(bs: seq<Ballot<V>>, th: MultiThreshold<ChainSelector>, r: map<ChainSelector, V>,
                              c: ChainSelector, v: V)
    requires IsAgreement(bs, th, r)
    requires th.Get(c).Some? && Agreed(Pooled(bs, c), th.Get(c).value, v)
    ensures c in r && r[c] == v
  {
    assert Winner(Pooled(bs, c), th.Get(c).value, r[c]);
  }

  lemma AgreementUnique<V(!new)>(bs: seq<Ballot<V>>, th: MultiThreshold<ChainSelector>,
                                 a: map<ChainSelector, V>, b: map<ChainSelector, V>)
    requires IsAgreement(bs, th, a) && IsAgreement(bs, th, b)
    ensures a == b
  {
    forall c | c in a
      ensures c in b && a[c] == b[c]
    {
      AgreementHas(bs, th, b, c, a[c]);
    }
    forall c | c in b
      ensures c in a
    {
      AgreementHas(bs, th, a, c, b[c]);
    }
  }

  /** Aggregating ballots and taking the consensus map gives the agreement. */
  method AgreePerChain<V(==,!new)>(bs: seq<Ballot<V>>, th: MultiThreshold<ChainSelector>)
    returns (r: map<ChainSelector, V>)
    ensures IsAgreement(bs, th, r)
  {
    var pool := Aggregate(bs);
    r := GetConsensusMap(pool, th);
    forall c | c in r
      ensures th.Get(c).Some? && Agreed(Pooled(bs, c), th.Get(c).value, r[c])
    {
      assert pool[c] == Listed(pool, c);
    }
    forall c, v | th.Get(c).Some? && Agreed(Pooled(bs, c), th.Get(c).value, v)
      ensures c in r
    {
      assert Listed(pool, c) == Pooled(bs, c);
    }
  }

  lemma ConstantAgreed<V(!new)>(votes: seq<V>, th: nat, v: V)
    requires th <= |votes| && votes != [] && forall i :: 0 <= i < |votes| ==> votes[i] == v
    ensures Agreed(votes, th, v)
  {
    var p := (w: V) => w == v;
    CountIfMultiplicity(votes, v);
    CountIfAll(votes, p);
    assert votes[0] == v;
  }

  /** r has the entries about chains with a threshold, and nothing else. */
  ghost predicate HasEntries<V(!new)>(entries: seq<(ChainSelector, V)>, th: MultiThreshold<ChainSelector>,
                                      r: map<ChainSelector, V>) {
    && (forall k :: 0 <= k < |entries| && th.Get(entries[k].0).Some? ==>
          entries[k].0 in r && r[entries[k].0] == entries[k].1)
    && forall c :: c in r ==> th.Get(c).Some? && exists k :: 0 <= k < |entries| && entries[k].0 == c
  }

  /** Ballots that all have the same entries agree on them, if there are enough of them. */
  lemma UnanimousAgreement<V(!new)>(bs: seq<Ballot<V>>, entries: seq<(ChainSelector, V)>,
                                    th: MultiThreshold<ChainSelector>, r: map<ChainSelector, V>)
    requires bs != [] && DistinctChains(entries) && forall i :: 0 <= i < |bs| ==> bs[i].entries == entries
    requires HasEntries(entries, th, r) && forall c :: c in r ==> th.Get(c).value <= |bs|
    ensures IsAgreement(bs, th, r)
  {
    forall c | c in r
      ensures Agreed(Pooled(bs, c), th.Get(c).value, r[c])
    {
      var k :| 0 <= k < |entries| && entries[k].0 == c;
      UnanimousPool(bs, entries, c);
      ConstantAgreed(Pooled(bs, c), th.Get(c).value, r[c]);
    }
    forall c, v | th.Get(c).Some? && Agreed(Pooled(bs, c), th.Get(c).value, v)
      ensures c in r
    {
      UnanimousPool(bs, entries, c);
    }
  }

  /** The same for entries given as a map with a threshold for all chains. */
  lemma UnanimousMap<V(!new)>(bs: seq<Ballot<V>>, th: nat, m: map<ChainSelector, V>)
    requires bs != [] && th <= |bs| && forall i :: 0 <= i < |bs| ==> bs[i].entries == MapEntries(m)
    ensures IsAgreement(bs, ConstantThreshold(th), m)
  {
    MapEntriesExact(m);
    forall c | c in m
      ensures exists k :: 0 <= k < |MapEntries(m)| && MapEntries(m)[k].0 == c
    {
      MapEntriesComplete(m, c);
    }
    UnanimousAgreement(bs, MapEntries(m), ConstantThreshold(th), m);
  }

  /** The oracles that voted v for chain c. */
  ghost function VotersFor<V>(bs: seq<Ballot<V>>, c: ChainSelector, v: V): set<OracleId> {
    set i, k | 0 <= i < |bs| && 0 <= k < |bs[i].entries| && bs[i].entries[k] == (c, v) :: bs[i].oracle
  }

  /** A value that reached a threshold above the number of faulty voters has honest voters: the
      threshold less the faulty ones. */
  lemma HonestWinner<V(!new)>(bs: seq<Ballot<V>>, c: ChainSelector, th: nat, v: V, faulty: set<OracleId>, f: nat)
    requires OneVoteEach(bs)
    requires Winner(Pooled(bs, c), th, v)
    requires |Speakers(bs, c) * faulty| <= f
    ensures |VotersFor(bs, c, v) - faulty| >= th - f
  {
    var p := (w: V) => w == v;
    CountIfMultiplicity(Pooled(bs, c), v);
    HonestBackers(bs, c, p, faulty, f);
    forall o | o in Backers(bs, c, p)
      ensures o in VotersFor(bs, c, v)
    {
      var i :| 0 <= i < |bs| && Backs(bs[i], c, p) && bs[i].oracle == o;
      var k :| 0 <= k < |bs[i].entries| && bs[i].entries[k].0 == c && p(bs[i].entries[k].1);
      assert bs[i].entries[k] == (c, v);
    }
    SubsetSize(Backers(bs, c, p) - faulty, VotersFor(bs, c, v) - faulty);
  }

  /** A value that enough oracles vote for reaches the threshold. */
  lemma VotedWins<V(!new)>(bs: seq<Ballot<V>>, c: ChainSelector, th: nat, v: V)
    requires OneVoteEach(bs) && 0 < th <= |VotersFor(bs, c, v)|
    ensures Winner(Pooled(bs, c), th, v)
  {
    var p := (w: V) => w == v;
    CountIfMultiplicity(Pooled(bs, c), v);
    CountIsOracles(bs, c, p);
    forall o | o in VotersFor(bs, c, v)
      ensures o in Backers(bs, c, p)
    {
      var i, k :| 0 <= i < |bs| && 0 <= k < |bs[i].entries| && bs[i].entries[k] == (c, v) && bs[i].oracle == o;
      assert Backs(bs[i], c, p);
    }
    SubsetSize(VotersFor(bs, c, v), Backers(bs, c, p));
  }
}
