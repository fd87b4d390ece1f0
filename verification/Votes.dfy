/** Votes of oracles about chains: pooling them, counting them, and what a count says when only
    some of the oracles may lie. */
module Votes {
  import opened CcipTypes
  import opened Sorting

  /** What one oracle says about some chains, entry by entry, as its observation lists it. */
  datatype Ballot<V> = Ballot(oracle: OracleId, entries: seq<(ChainSelector, V)>)

  /** The values a list of entries gives for chain c, in order. */
  function Cast<V>(entries: seq<(ChainSelector, V)>, c: ChainSelector): seq<V> {
    if entries == [] then []
    else
      var last := entries[|entries| - 1];
      Cast(entries[..|entries| - 1], c) + if last.0 == c then [last.1] else []
  }

  /** All values given for chain c, ballot after ballot. */
  function Pooled<V>(bs: seq<Ballot<V>>, c: ChainSelector): seq<V> {
    if bs == [] then []
    else Pooled(bs[..|bs| - 1], c) + Cast(bs[|bs| - 1].entries, c)
  }

  /** m[c], or the empty list. */
  function Listed<V>(m: map<ChainSelector, seq<V>>, c: ChainSelector): seq<V> {
    if c in m then m[c] else []
  }

  /** m holds exactly the non-empty lists that bs pools. */
  ghost predicate IsPool<V>(bs: seq<Ballot<V>>, m: map<ChainSelector, seq<V>>) {
    && (forall c :: c in m ==> m[c] != [])
    && forall c :: Listed(m, c) == Pooled(bs, c)
  }

  /** The aggregation step: append every entry of every ballot to its chain's list. */
  method Aggregate<V>(bs: seq<Ballot<V>>) returns (m: map<ChainSelector, seq<V>>)
    ensures IsPool(bs, m)
  {
    m := map[];
    for i := 0 to |bs|
      invariant IsPool(bs[..i], m)
    {
      assert bs[..i + 1][..i] == bs[..i];
      m := AppendEntries(m, bs[i].entries);
    }
    assert bs[..|bs|] == bs;
  }

  lemma CastStep<V>(entries: seq<(ChainSelector, V)>, k: nat, c: ChainSelector)
    requires k < |entries|
    ensures Cast(entries[..k + 1], c) == Cast(entries[..k], c) + if entries[k].0 == c then [entries[k].1] else []
  {
    assert entries[..k + 1][..k] == entries[..k];
  }

  lemma AppendStep<V>(m0: map<ChainSelector, seq<V>>, before: map<ChainSelector, seq<V>>, m: map<ChainSelector, seq<V>>,
                      entries: seq<(ChainSelector, V)>, k: nat, d: ChainSelector)
    requires k < |entries| && Listed(before, d) == Listed(m0, d) + Cast(entries[..k], d)
    requires m == before[entries[k].0 := Listed(before, entries[k].0) + [entries[k].1]]
    ensures Listed(m, d) == Listed(m0, d) + Cast(entries[..k + 1], d)
  {
    CastStep(entries, k, d);
  }

  method AppendEntries<V>(m0: map<ChainSelector, seq<V>>, entries: seq<(ChainSelector, V)>)
    returns (m: map<ChainSelector, seq<V>>)
    requires forall c :: c in m0 ==> m0[c] != []
    ensures forall c :: c in m ==> m[c] != []
    ensures forall c :: Listed(m, c) == Listed(m0, c) + Cast(entries, c)
  {
    m := m0;
    for k := 0 to |entries|
      invariant forall c :: c in m ==> m[c] != []
      invariant forall c :: Listed(m, c) == Listed(m0, c) + Cast(entries[..k], c)
    {
      var (c, v) := entries[k];
      ghost var before := m;
      m := m[c := Listed(m, c) + [v]];
      forall d
        ensures Listed(m, d) == Listed(m0, d) + Cast(entries[..k + 1], d)
      {
        AppendStep(m0, before, m, entries, k, d);
      }
    }
    assert entries[..|entries|] == entries;
  }

  // ---------- one vote each ----------

  ghost predicate DistinctChains<V>(entries: seq<(ChainSelector, V)>) {
    forall i, j :: 0 <= i < j < |entries| ==> entries[i].0 != entries[j].0
  }

  /** Different oracles, and none of them names a chain twice. */
  ghost predicate OneVoteEach<V>(bs: seq<Ballot<V>>) {
    && (forall i, j :: 0 <= i < j < |bs| ==> bs[i].oracle != bs[j].oracle)
    && forall i :: 0 <= i < |bs| ==> DistinctChains(bs[i].entries)
  }

  /** Ballot b has an entry for chain c whose value satisfies p. */
  ghost predicate Backs<V>(b: Ballot<V>, c: ChainSelector, p: V -> bool) {
    exists k :: 0 <= k < |b.entries| && b.entries[k].0 == c && p(b.entries[k].1)
  }

  /** The oracles whose ballot gives chain c a value satisfying p. */
  ghost function Backers<V>(bs: seq<Ballot<V>>, c: ChainSelector, p: V -> bool): set<OracleId> {
    set i | 0 <= i < |bs| && Backs(bs[i], c, p) :: bs[i].oracle
  }

  /** The oracles that say anything about chain c. */
  ghost function Speakers<V>(bs: seq<Ballot<V>>, c: ChainSelector): set<OracleId> {
    set i, k | 0 <= i < |bs| && 0 <= k < |bs[i].entries| && bs[i].entries[k].0 == c :: bs[i].oracle
  }

  /** A ballot without repeated chains gives chain c at most one value. */
  lemma {:induction false} CastAtMostOnce<V>(entries: seq<(ChainSelector, V)>, c: ChainSelector)
    requires DistinctChains(entries)
    ensures |Cast(entries, c)| <= 1
    ensures Cast(entries, c) == [] ==> forall k :: 0 <= k < |entries| ==> entries[k].0 != c
    ensures Cast(entries, c) != [] ==> exists k :: 0 <= k < |entries| && entries[k] == (c, Cast(entries, c)[0])
  {
    if entries != [] {
      var front := entries[..|entries| - 1];
      CastAtMostOnce(front, c);
      if Cast(front, c) != [] {
        var k :| 0 <= k < |front| && front[k] == (c, Cast(front, c)[0]);
        assert entries[k] == front[k];
      } else {
        var last := entries[|entries| - 1];
        assert last.0 == c ==> Cast(entries, c) == [last.1];
      }
    }
  }

  lemma CountOfOne<V>(v: V, p: V -> bool)
    ensures CountIf([v], p) == if p(v) then 1 else 0
  {
    assert [v][..0] == [];
  }

  /** The only entry about chain c decides whether the ballot backs p. */
  lemma OnlyEntryBacks<V>(b: Ballot<V>, c: ChainSelector, p: V -> bool, k: nat)
    requires DistinctChains(b.entries) && k < |b.entries| && b.entries[k].0 == c
    ensures Backs(b, c, p) <==> p(b.entries[k].1)
  {
    forall i | 0 <= i < |b.entries| && b.entries[i].0 == c
      ensures i == k
    {
    }
  }

  /** A ballot without repeated chains has one entry about c, whose value it casts, or none. */
  lemma OneEntry<V>(entries: seq<(ChainSelector, V)>, c: ChainSelector) returns (k: Option<nat>)
    requires DistinctChains(entries)
    ensures k.None? ==> Cast(entries, c) == [] && forall i :: 0 <= i < |entries| ==> entries[i].0 != c
    ensures k.Some? ==> k.value < |entries| && entries[k.value].0 == c && Cast(entries, c) == [entries[k.value].1]
  {
    CastAtMostOnce(entries, c);
    if Cast(entries, c) == [] {
      k := None;
    } else {
      var i :| 0 <= i < |entries| && entries[i] == (c, Cast(entries, c)[0]);
      k := Some(i);
    }
  }

  lemma CastCount<V>(b: Ballot<V>, c: ChainSelector, p: V -> bool)
    requires DistinctChains(b.entries)
    ensures CountIf(Cast(b.entries, c), p) == if Backs(b, c, p) then 1 else 0
  {
    var k := OneEntry(b.entries, c);
    if k.Some? {
      CountOfOne(b.entries[k.value].1, p);
      OnlyEntryBacks(b, c, p, k.value);
    }
  }

  lemma BackersOfFront<V>(bs: seq<Ballot<V>>, c: ChainSelector, p: V -> bool)
    requires bs != []
    ensures Backers(bs, c, p) ==
            Backers(bs[..|bs| - 1], c, p) + if Backs(bs[|bs| - 1], c, p) then {bs[|bs| - 1].oracle} else {}
  {
    var front, last := bs[..|bs| - 1], bs[|bs| - 1];
    forall o | o in Backers(bs, c, p)
      ensures o in Backers(front, c, p) + if Backs(last, c, p) then {last.oracle} else {}
    {
      var i :| 0 <= i < |bs| && Backs(bs[i], c, p) && bs[i].oracle == o;
      if i < |front| {
        assert front[i] == bs[i];
      }
    }
    forall o | o in Backers(front, c, p)
      ensures o in Backers(bs, c, p)
    {
      var i :| 0 <= i < |front| && Backs(front[i], c, p) && front[i].oracle == o;
      assert bs[i] == front[i];
    }
  }

  /** With one vote each, counting pooled values is counting oracles. */
  lemma {:induction false} CountIsOracles<V>(bs: seq<Ballot<V>>, c: ChainSelector, p: V -> bool)
    requires OneVoteEach(bs)
    ensures CountIf(Pooled(bs, c), p) == |Backers(bs, c, p)|
  {
    if bs != [] {
      var front, last := bs[..|bs| - 1], bs[|bs| - 1];
      CountIsOracles(front, c, p);
      CountIfConcat(Pooled(front, c), Cast(last.entries, c), p);
      CastCount(last, c, p);
      BackersOfFront(bs, c, p);
      assert last.oracle !in Backers(front, c, p);
    }
  }

  /** As many values are pooled for a chain as oracles speak about it. */
  lemma PoolIsSpeakers<V>(bs: seq<Ballot<V>>, c: ChainSelector)
    requires OneVoteEach(bs)
    ensures |Pooled(bs, c)| == |Speakers(bs, c)|
  {
    var all := (v: V) => true;
    CountIsOracles(bs, c, all);
    CountIfAll(Pooled(bs, c), all);
    forall o | o in Speakers(bs, c)
      ensures o in Backers(bs, c, all)
    {
      var i, k :| 0 <= i < |bs| && 0 <= k < |bs[i].entries| && bs[i].entries[k].0 == c && bs[i].oracle == o;
      assert Backs(bs[i], c, all);
    }
    assert Backers(bs, c, all) == Speakers(bs, c);
  }

  // ---------- oracles that all say the same, or nothing ----------

  lemma CastOfOne<V>(c: ChainSelector, v: V)
    ensures Cast([(c, v)], c) == [v]
  {
    assert [(c, v)][..0] == [];
  }

  /** If all ballots have the same entries, what they say about c is pooled as often as there are ballots. */
  lemma {:induction false} UnanimousPool<V>(bs: seq<Ballot<V>>, entries: seq<(ChainSelector, V)>, c: ChainSelector)
    requires DistinctChains(entries) && forall i :: 0 <= i < |bs| ==> bs[i].entries == entries
    ensures (forall k :: 0 <= k < |entries| ==> entries[k].0 != c) ==> Pooled(bs, c) == []
    ensures forall k :: 0 <= k < |entries| && entries[k].0 == c ==>
              |Pooled(bs, c)| == |bs| && forall i :: 0 <= i < |bs| ==> Pooled(bs, c)[i] == entries[k].1
  {
    if bs != [] {
      UnanimousPool(bs[..|bs| - 1], entries, c);
      var k := OneEntry(entries, c);
    }
  }

  /** Ballots without entries add nothing to the pool. */
  lemma {:induction false} EmptyBallots<V>(bs: seq<Ballot<V>>, more: seq<Ballot<V>>, c: ChainSelector)
    requires forall i :: 0 <= i < |more| ==> more[i].entries == []
    ensures Pooled(bs + more, c) == Pooled(bs, c)
  {
    if more == [] {
      assert bs + more == bs;
    } else {
      assert (bs + more)[..|bs + more| - 1] == bs + more[..|more| - 1];
      EmptyBallots(bs, more[..|more| - 1], c);
    }
  }

  // ---------- votes given as a map ----------

  /** The entries of a map, in the order of its keys. */
  function MapEntries<V>(m: map<ChainSelector, V>): seq<(ChainSelector, V)> {
    var keys := Ascending(m.Keys);
    AscendingMembers(m.Keys);
    seq(|keys|, i requires 0 <= i < |keys| => assert keys[i] in m.Keys; (keys[i], m[keys[i]]))
  }

  lemma MapEntriesExact<V>(m: map<ChainSelector, V>)
    ensures DistinctChains(MapEntries(m))
    ensures forall k :: 0 <= k < |MapEntries(m)| ==>
              MapEntries(m)[k].0 in m && MapEntries(m)[k].1 == m[MapEntries(m)[k].0]
  {
    AscendingOrder(m.Keys);
    AscendingMembers(m.Keys);
  }

  lemma EntryOfMap<V>(m: map<ChainSelector, V>, entries: seq<(ChainSelector, V)>, k: nat, c: ChainSelector, v: V)
    requires entries == MapEntries(m) && k < |entries| && entries[k] == (c, v)
    ensures c in m && m[c] == v
  {
    MapEntriesExact(m);
  }

  lemma MapEntriesComplete<V>(m: map<ChainSelector, V>, c: ChainSelector)
    requires c in m
    ensures exists k :: 0 <= k < |MapEntries(m)| && MapEntries(m)[k] == (c, m[c])
  {
    AscendingMembers(m.Keys);
    var keys := Ascending(m.Keys);
    assert c in keys;
    var k :| 0 <= k < |keys| && keys[k] == c;
    assert MapEntries(m)[k] == (c, m[c]);
  }

  // ---------- quorums ----------

  /** Of n oracles at most f of which are faulty, at least n - f are honest. */
  lemma HonestRemainder(voters: set<OracleId>, faulty: set<OracleId>, f: nat)
    requires |voters * faulty| <= f
    ensures |voters - faulty| >= |voters| - f
  {
    assert voters == (voters * faulty) + (voters - faulty);
  }

  /** More than f votes with a property include an honest one, and in all, count - f of them are honest. */
  lemma HonestBackers<V>(bs: seq<Ballot<V>>, c: ChainSelector, p: V -> bool, faulty: set<OracleId>, f: nat)
    requires OneVoteEach(bs)
    requires |Speakers(bs, c) * faulty| <= f
    ensures |Backers(bs, c, p) - faulty| >= CountIf(Pooled(bs, c), p) - f
    ensures CountIf(Pooled(bs, c), p) > f ==>
              exists i :: 0 <= i < |bs| && bs[i].oracle !in faulty && Backs(bs[i], c, p)
  {
    CountIsOracles(bs, c, p);
    SubsetSize(Backers(bs, c, p) * faulty, Speakers(bs, c) * faulty);
    HonestRemainder(Backers(bs, c, p), faulty, f);
    if CountIf(Pooled(bs, c), p) > f {
      assert |Backers(bs, c, p) - faulty| > 0;
      var o :| o in Backers(bs, c, p) - faulty;
    }
  }

  // ---------- order statistics ----------

  /** The k-th entry of ballot i is about chain c and comes from an honest oracle. */
  ghost predicate HonestVote<V>(bs: seq<Ballot<V>>, c: ChainSelector, faulty: set<OracleId>, i: int, k: int) {
    0 <= i < |bs| && bs[i].oracle !in faulty && 0 <= k < |bs[i].entries| && bs[i].entries[k].0 == c
  }

  /** An honest oracle votes for at most v on chain c. */
  ghost predicate HonestAtMost(bs: seq<Ballot<SeqNum>>, c: ChainSelector, faulty: set<OracleId>, v: SeqNum) {
    exists i, k :: HonestVote(bs, c, faulty, i, k) && bs[i].entries[k].1 <= v
  }

  /** An honest oracle votes for at least v on chain c. */
  ghost predicate HonestAtLeast(bs: seq<Ballot<SeqNum>>, c: ChainSelector, faulty: set<OracleId>, v: SeqNum) {
    exists i, k :: HonestVote(bs, c, faulty, i, k) && bs[i].entries[k].1 >= v
  }

  lemma HonestBackerVotes(bs: seq<Ballot<SeqNum>>, c: ChainSelector, faulty: set<OracleId>, p: SeqNum -> bool, b: nat)
    returns (i: int, k: int)
    requires OneVoteEach(bs) && |Speakers(bs, c) * faulty| <= b && CountIf(Pooled(bs, c), p) > b
    ensures HonestVote(bs, c, faulty, i, k) && p(bs[i].entries[k].1)
  {
    HonestBackers(bs, c, p, faulty, b);
    i :| 0 <= i < |bs| && bs[i].oracle !in faulty && Backs(bs[i], c, p);
    k :| 0 <= k < |bs[i].entries| && bs[i].entries[k].0 == c && p(bs[i].entries[k].1);
  }

  /** With at most b faulty votes the f-th smallest is not below every honest vote if b <= f, and with
      at least f + b + 1 votes not above every honest vote. */
  lemma HonestBounds(bs: seq<Ballot<SeqNum>>, c: ChainSelector, faulty: set<OracleId>, f: nat, b: nat)
    requires OneVoteEach(bs)
    requires f < |Pooled(bs, c)|
    requires |Speakers(bs, c) * faulty| <= b
    ensures b <= f ==> HonestAtMost(bs, c, faulty, Sort(Pooled(bs, c))[f])
    ensures |Pooled(bs, c)| >= f + b + 1 ==> HonestAtLeast(bs, c, faulty, Sort(Pooled(bs, c))[f])
  {
    var pick := Sort(Pooled(bs, c))[f];
    OrderStatistic(Pooled(bs, c), f, pick);
    if b <= f {
      var i, k := HonestBackerVotes(bs, c, faulty, (v: SeqNum) => v <= pick, b);
    }
    if |Pooled(bs, c)| >= f + b + 1 {
      var i, k := HonestBackerVotes(bs, c, faulty, (v: SeqNum) => v >= pick, b);
    }
  }

  // ---------- the bounds are exact ----------

  /** n votes about c, at most b of them faulty. */
  ghost predicate Poll(bs: seq<Ballot<SeqNum>>, c: ChainSelector, faulty: set<OracleId>, n: nat, b: nat) {
    OneVoteEach(bs) && |Pooled(bs, c)| == n && |Speakers(bs, c) * faulty| <= b
  }

  /** The f-th smallest of n votes is never below every honest one. */
  ghost predicate NeverBelowHonest(n: nat, f: nat, b: nat)
    requires f < n
  {
    forall bs: seq<Ballot<SeqNum>>, c: ChainSelector, faulty: set<OracleId> ::
      Poll(bs, c, faulty, n, b) ==> HonestAtMost(bs, c, faulty, Sort(Pooled(bs, c))[f])
  }

  /** The f-th smallest of n votes is never above every honest one. */
  ghost predicate NeverAboveHonest(n: nat, f: nat, b: nat)
    requires f < n
  {
    forall bs: seq<Ballot<SeqNum>>, c: ChainSelector, faulty: set<OracleId> ::
      Poll(bs, c, faulty, n, b) ==> HonestAtLeast(bs, c, faulty, Sort(Pooled(bs, c))[f])
  }

  /** The n ballots about chain c of which the first k vote one and the others two. */
  ghost function Blocks(n: nat, k: nat, c: ChainSelector): seq<Ballot<SeqNum>>
    requires k <= n
  {
    seq(n, i requires 0 <= i < n => Ballot(i, [(c, if i < k then 1 else 2)]))
  }

  lemma {:induction false} BlocksPool(n: nat, k: nat, c: ChainSelector, m: nat)
    requires k <= n && m <= n
    ensures |Pooled(Blocks(n, k, c)[..m], c)| == m
    ensures forall i :: 0 <= i < m ==> Pooled(Blocks(n, k, c)[..m], c)[i] == if i < k then 1 else 2
    decreases m
  {
    if m > 0 {
      BlocksPool(n, k, c, m - 1);
      var bs := Blocks(n, k, c);
      assert bs[..m][..m - 1] == bs[..m - 1];
      var entries := bs[m - 1].entries;
      assert entries[..0] == [];
      assert Cast(entries, c) == [entries[0].1];
    }
  }

  lemma {:induction false} SortOfSorted(s: seq<SeqNum>)
    requires SortedBy(s, (v: SeqNum) => v as int)
    ensures SortBy(s, (v: SeqNum) => v as int) == s
  {
    if s != [] {
      var front := s[..|s| - 1];
      SortOfSorted(front);
      assert s == front + [s[|s| - 1]];
    }
  }

  lemma BlocksPick(n: nat, k: nat, c: ChainSelector, f: nat)
    requires k <= n && f < n
    ensures |Pooled(Blocks(n, k, c), c)| == n
    ensures Sort(Pooled(Blocks(n, k, c), c))[f] == if f < k then 1 else 2
  {
    BlocksPool(n, k, c, n);
    assert Blocks(n, k, c)[..n] == Blocks(n, k, c);
    SortOfSorted(Pooled(Blocks(n, k, c), c));
  }

  /** The oracles lo, ..., hi - 1. */
  ghost function Span(lo: nat, hi: nat): (s: set<OracleId>)
    requires lo <= hi
    ensures |s| == hi - lo
    ensures forall o :: o in s <==> lo <= o < hi
    decreases hi - lo
  {
    if lo == hi then {} else {lo} + Span(lo + 1, hi)
  }

  lemma BlocksPoll(n: nat, k: nat, c: ChainSelector, lo: nat, hi: nat, b: nat)
    requires k <= n && lo <= hi <= n && hi - lo <= b
    ensures Poll(Blocks(n, k, c), c, Span(lo, hi), n, b)
  {
    var bs, faulty := Blocks(n, k, c), Span(lo, hi);
    BlocksVotes(n, k, c, bs);
    assert Speakers(bs, c) * faulty <= faulty;
    SubsetSize(Speakers(bs, c) * faulty, faulty);
  }

  lemma BlocksVotes(n: nat, k: nat, c: ChainSelector, bs: seq<Ballot<SeqNum>>)
    requires k <= n && bs == Blocks(n, k, c)
    ensures OneVoteEach(bs) && |Pooled(bs, c)| == n
  {
    BlocksPool(n, k, c, n);
    assert bs[..n] == bs;
  }

  /** The lower bound holds exactly if there are at most f faulty votes: f + 1 of them for one beat any
      number of honest votes for two. */
  lemma LowerBoundExactly(n: nat, f: nat, b: nat)
    requires f < n
    ensures NeverBelowHonest(n, f, b) <==> b <= f
  {
    if b <= f {
      forall bs: seq<Ballot<SeqNum>>, c: ChainSelector, faulty: set<OracleId> | Poll(bs, c, faulty, n, b)
        ensures HonestAtMost(bs, c, faulty, Sort(Pooled(bs, c))[f])
      {
        HonestBounds(bs, c, faulty, f, b);
      }
    } else {
      BlocksPoll(n, f + 1, 1, 0, f + 1, b);
      BlocksPick(n, f + 1, 1, f);
      assert !HonestAtMost(Blocks(n, f + 1, 1), 1, Span(0, f + 1), 1);
    }
  }

  /** The upper bound holds exactly from f + b + 1 votes on: with fewer, n - f faulty votes for two
      leave f honest ones for one. */
  lemma UpperBoundExactly(n: nat, f: nat, b: nat)
    requires f < n
    ensures NeverAboveHonest(n, f, b) <==> n >= f + b + 1
  {
    if n >= f + b + 1 {
      forall bs: seq<Ballot<SeqNum>>, c: ChainSelector, faulty: set<OracleId> | Poll(bs, c, faulty, n, b)
        ensures HonestAtLeast(bs, c, faulty, Sort(Pooled(bs, c))[f])
      {
        HonestBounds(bs, c, faulty, f, b);
      }
    } else {
      BlocksPoll(n, f, 1, f, n, b);
      BlocksPick(n, f, 1, f);
      assert !HonestAtLeast(Blocks(n, f, 1), 1, Span(f, n), 2);
    }
  }
}
