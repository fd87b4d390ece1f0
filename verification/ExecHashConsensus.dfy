/** Consensus on message hashes: the one hash with at least f + 1 votes, whatever order votes and
    candidates come in. */
module ExecHashConsensus {
  import opened CcipTypes
  import opened NestedMaps
  import opened Votes
  import opened ExecTypes

  /** A chain and a sequence number on it. */
  type Place = (ChainSelector, SeqNum)

  type VoteTable = map<Place, map<Bytes32, nat>>

  // ---------- the votes ----------

  /** The oracle reports hash h at place p. */
  predicate Reports(hashes: MessageHashes, p: Place, h: Bytes32) {
    p.0 in hashes && p.1 in hashes[p.0] && hashes[p.0][p.1] == h
  }

  /** How many observations report h at p. */
  ghost function HashVotes(aos: seq<AttributedObservation>, p: Place, h: Bytes32): nat {
    if aos == [] then 0
    else HashVotes(aos[..|aos| - 1], p, h) + if Reports(aos[|aos| - 1].obs.hashes, p, h) then 1 else 0
  }

  /** The count in the table, zero where it has none. */
  function Tally(t: VoteTable, p: Place, h: Bytes32): nat {
    if p in t && h in t[p] then t[p][h] else 0
  }

  /** No entry of the table is empty or zero. */
  ghost predicate Proper(t: VoteTable) {
    forall p, h :: p in t && h in t[p] ==> t[p][h] > 0
  }

  /** hashVotes[pair][hash]++ */
  function Vote(t: VoteTable, p: Place, h: Bytes32): (r: VoteTable)
    ensures Proper(t) ==> Proper(r)
    ensures forall q, g :: Tally(r, q, g) == Tally(t, q, g) + if q == p && g == h then 1 else 0
  {
    var at: map<Bytes32, nat> := if p in t then t[p] else map[];
    var n := Tally(t, p, h) + 1;
    t[p := at[h := n]]
  }

  /** Votes of one observation. */
  ghost predicate Added(t0: VoteTable, hashes: MessageHashes, t: VoteTable) {
    && Proper(t)
    && forall p, h :: Tally(t, p, h) == Tally(t0, p, h) + if Reports(hashes, p, h) then 1 else 0
  }

  method AddChainHashes(t0: VoteTable, c: ChainSelector, hashes: map<SeqNum, Bytes32>) returns (t: VoteTable)
    requires Proper(t0)
    ensures Added(t0, map[c := hashes], t)
  {
    t := t0;
    var rest := hashes.Keys;
    while rest != {}
      invariant rest <= hashes.Keys && Added(t0, map[c := hashes - rest], t)
    {
      var s :| s in rest;
      ghost var before := t;
      t := Vote(t, (c, s), hashes[s]);
      forall p, h
        ensures Tally(t, p, h) == Tally(t0, p, h) + if Reports(map[c := hashes - (rest - {s})], p, h) then 1 else 0
      {
        assert Tally(before, p, h) == Tally(t0, p, h) + if Reports(map[c := hashes - rest], p, h) then 1 else 0;
      }
      rest := rest - {s};
    }
    assert hashes - rest == hashes;
  }

  lemma AddedFurther(t0: VoteTable, hashes: MessageHashes, rest: set<ChainSelector>, c: ChainSelector,
                     before: VoteTable, t: VoteTable)
    requires c in rest && rest <= hashes.Keys
    requires Added(t0, hashes - rest, before) && Added(before, map[c := hashes[c]], t)
    ensures Added(t0, hashes - (rest - {c}), t)
  {
    forall p, h
      ensures Tally(t, p, h) == Tally(t0, p, h) + if Reports(hashes - (rest - {c}), p, h) then 1 else 0
    {
      assert Tally(before, p, h) == Tally(t0, p, h) + if Reports(hashes - rest, p, h) then 1 else 0;
      assert Reports(hashes - (rest - {c}), p, h) <==>
             Reports(hashes - rest, p, h) || Reports(map[c := hashes[c]], p, h);
    }
  }

  method AddObservationHashes(t0: VoteTable, hashes: MessageHashes) returns (t: VoteTable)
    requires Proper(t0)
    ensures Added(t0, hashes, t)
  {
    t := t0;
    var rest := hashes.Keys;
    while rest != {}
      invariant rest <= hashes.Keys && Added(t0, hashes - rest, t)
    {
      var c :| c in rest;
      ghost var before := t;
      t := AddChainHashes(t, c, hashes[c]);
      AddedFurther(t0, hashes, rest, c, before, t);
      rest := rest - {c};
    }
    assert hashes - rest == hashes;
  }

  /** The table counts exactly the votes. */
  ghost predicate IsTable(aos: seq<AttributedObservation>, t: VoteTable) {
    Proper(t) && forall p, h :: Tally(t, p, h) == HashVotes(aos, p, h)
  }

  method CountHashes(aos: seq<AttributedObservation>) returns (t: VoteTable)
    ensures IsTable(aos, t)
  {
    t := map[];
    for i := 0 to |aos|
      invariant IsTable(aos[..i], t)
    {
      assert aos[..i + 1][..i] == aos[..i];
      t := AddObservationHashes(t, aos[i].obs.hashes);
    }
    assert aos[..|aos|] == aos;
  }

  // ---------- picking ----------

  /** h is the only hash with at least f + 1 votes. */
  ghost predicate Alone(votes: map<Bytes32, nat>, f: nat, h: Bytes32) {
    && h in votes && votes[h] >= f + 1
    && forall g :: g in votes && votes[g] >= f + 1 ==> g == h
  }

  /** delete(results[c], s), and results[c] too if nothing is left in it. */
  function Without(results: MessageHashes, p: Place): MessageHashes {
    if p.0 !in results then results
    else
      var at := results[p.0] - {p.1};
      if at == map[] then results - {p.0} else results[p.0 := at]
  }

  ghost predicate NoEmptyChain(results: MessageHashes) {
    forall c :: c in results ==> results[c] != map[]
  }

  lemma WithFacts(results: MessageHashes, p: Place, h: Bytes32)
    requires NoEmptyChain(results)
    ensures NoEmptyChain(With(results, p, h))
    ensures forall q :: At(With(results, p, h), q) == if q == p then Some(h) else At(results, q)
  {
    WithAt(results, p, h);
    assert p.1 in With(results, p, h)[p.0];
  }

  /** Taking an entry out again leaves no trace, not even an empty map. */
  lemma WithWithout(results: MessageHashes, p: Place, h: Bytes32, g: Bytes32)
    requires NoEmptyChain(results) && At(results, p) == None
    ensures Without(With(With(results, p, h), p, g), p) == results
  {
    var twice := With(With(results, p, h), p, g);
    if p.0 in results {
      assert twice[p.0] - {p.1} == results[p.0];
      assert twice[p.0 := results[p.0]] == results;
    } else {
      assert twice[p.0] - {p.1} == map[];
      assert twice - {p.0} == results;
    }
  }

  /** The candidates of one place: the first to qualify is entered, a second one removes it and ends
      the search, so that a third cannot get in. */
  method PickHash(results0: MessageHashes, p: Place, votes: map<Bytes32, nat>, f: nat) returns (results: MessageHashes)
    requires NoEmptyChain(results0) && At(results0, p) == None
    ensures NoEmptyChain(results)
    ensures (exists h :: Alone(votes, f, h) && results == With(results0, p, h))
            || (results == results0 && forall h :: !Alone(votes, f, h))
  {
    results := results0;
    ghost var first: Option<Bytes32> := None;
    var rest := votes.Keys;
    while rest != {}
      invariant rest <= votes.Keys
      invariant first.None? ==> results == results0 && forall h :: h in votes && h !in rest ==> votes[h] < f + 1
      invariant first.Some? ==> results == With(results0, p, first.value)
      invariant first.Some? ==> first.value in votes && first.value !in rest && votes[first.value] >= f + 1
      invariant first.Some? ==> forall h :: h in votes && h !in rest && votes[h] >= f + 1 ==> h == first.value
    {
      var h :| h in rest;
      rest := rest - {h};
      if votes[h] < f + 1 {
        continue;
      }
      var existing := At(results, p);
      results := With(results, p, h);
      if existing.Some? {
        results := Without(results, p);
        WithWithout(results0, p, first.value, h);
        return;
      }
      first := Some(h);
    }
    if first.Some? {
      WithFacts(results0, p, first.value);
      assert Alone(votes, f, first.value);
    }
  }

  /** h is the only hash that at least f + 1 observations report at p. */
  ghost predicate OnlyHash(aos: seq<AttributedObservation>, p: Place, f: nat, h: Bytes32) {
    HashVotes(aos, p, h) >= f + 1 && forall g :: HashVotes(aos, p, g) >= f + 1 ==> g == h
  }

  lemma AloneIsOnly(aos: seq<AttributedObservation>, t: VoteTable, p: Place, f: nat, h: Bytes32)
    requires IsTable(aos, t)
    ensures OnlyHash(aos, p, f, h) <==> p in t && Alone(t[p], f, h)
  {
    forall g
      ensures HashVotes(aos, p, g) >= f + 1 <==> p in t && g in t[p] && t[p][g] >= f + 1
    {
      assert Tally(t, p, g) == HashVotes(aos, p, g);
    }
  }

  /** An entry exactly where f is known and one hash alone has f + 1 votes, and no empty map. */
  ghost predicate IsHashConsensus(aos: seq<AttributedObservation>, fChain: map<ChainSelector, nat>, r: MessageHashes) {
    && NoEmptyChain(r)
    && forall p: Place, h: Bytes32 :: At(r, p) == Some(h) <==> p.0 in fChain && OnlyHash(aos, p, fChain[p.0], h)
  }

  /** The same for the places outside rest only. */
  ghost predicate PickedOutside(aos: seq<AttributedObservation>, fChain: map<ChainSelector, nat>, rest: set<Place>,
                                r: MessageHashes) {
    && NoEmptyChain(r)
    && forall p: Place, h: Bytes32 :: At(r, p) == Some(h) <==>
         p !in rest && p.0 in fChain && OnlyHash(aos, p, fChain[p.0], h)
  }

  lemma PickedOneMore(aos: seq<AttributedObservation>, fChain: map<ChainSelector, nat>, rest: set<Place>, p: Place,
                      before: MessageHashes, h: Bytes32)
    requires p in rest && p.0 in fChain && PickedOutside(aos, fChain, rest, before) && OnlyHash(aos, p, fChain[p.0], h)
    ensures PickedOutside(aos, fChain, rest - {p}, With(before, p, h))
  {
    var r := With(before, p, h);
    WithFacts(before, p, h);
    forall q: Place, g: Bytes32
      ensures At(r, q) == Some(g) <==> q !in rest - {p} && q.0 in fChain && OnlyHash(aos, q, fChain[q.0], g)
    {
      assert At(before, q) == Some(g) <==> q !in rest && q.0 in fChain && OnlyHash(aos, q, fChain[q.0], g);
    }
  }

  lemma PickedNoMore(aos: seq<AttributedObservation>, fChain: map<ChainSelector, nat>, rest: set<Place>, p: Place,
                     before: MessageHashes)
    requires p in rest && PickedOutside(aos, fChain, rest, before)
    requires p.0 in fChain ==> forall h :: !OnlyHash(aos, p, fChain[p.0], h)
    ensures PickedOutside(aos, fChain, rest - {p}, before)
  {
  }

  lemma NotYetPicked(aos: seq<AttributedObservation>, fChain: map<ChainSelector, nat>, rest: set<Place>, p: Place,
                     r: MessageHashes)
    requires p in rest && PickedOutside(aos, fChain, rest, r)
    ensures At(r, p) == None
  {
    assert forall h: Bytes32 :: At(r, p) != Some(h);
  }

  /** One place: skipped if f is not known for its chain. */
  method PickAt(ghost aos: seq<AttributedObservation>, fChain: map<ChainSelector, nat>, t: VoteTable,
                ghost rest: set<Place>, p: Place, before: MessageHashes)
    returns (results: MessageHashes)
    requires IsTable(aos, t) && p in rest && p in t && PickedOutside(aos, fChain, rest, before)
    ensures PickedOutside(aos, fChain, rest - {p}, results)
  {
    if p.0 !in fChain {
      PickedNoMore(aos, fChain, rest, p, before);
      return before;
    }
    NotYetPicked(aos, fChain, rest, p, before);
    results := PickHash(before, p, t[p], fChain[p.0]);
    if h :| Alone(t[p], fChain[p.0], h) && results == With(before, p, h) {
      AloneIsOnly(aos, t, p, fChain[p.0], h);
      PickedOneMore(aos, fChain, rest, p, before, h);
    } else {
      forall h
        ensures !OnlyHash(aos, p, fChain[p.0], h)
      {
        AloneIsOnly(aos, t, p, fChain[p.0], h);
      }
      PickedNoMore(aos, fChain, rest, p, before);
    }
  }

  lemma NothingPicked(aos: seq<AttributedObservation>, fChain: map<ChainSelector, nat>, t: VoteTable)
    requires IsTable(aos, t)
    ensures PickedOutside(aos, fChain, t.Keys, map[])
  {
    forall p: Place, h: Bytes32 | p !in t.Keys && p.0 in fChain
      ensures !OnlyHash(aos, p, fChain[p.0], h)
    {
      AloneIsOnly(aos, t, p, fChain[p.0], h);
    }
  }

  method ComputeMessageHashesConsensus(aos: seq<AttributedObservation>, fChain: map<ChainSelector, nat>)
    returns (results: MessageHashes)
    ensures IsHashConsensus(aos, fChain, results)
  {
    var t := CountHashes(aos);
    results := map[];
    var rest := t.Keys;
    NothingPicked(aos, fChain, t);
    while rest != {}
      invariant rest <= t.Keys && PickedOutside(aos, fChain, rest, results)
    {
      var p :| p in rest;
      results := PickAt(aos, fChain, t, rest, p, results);
      rest := rest - {p};
    }
  }

  // ---------- what the consensus means ----------

  lemma ConsensusInside(aos: seq<AttributedObservation>, fChain: map<ChainSelector, nat>, a: MessageHashes,
                        b: MessageHashes, c: ChainSelector)
    requires IsHashConsensus(aos, fChain, a) && IsHashConsensus(aos, fChain, b) && c in a
    ensures c in b && forall s :: s in a[c] ==> s in b[c] && b[c][s] == a[c][s]
  {
    forall s | s in a[c]
      ensures c in b && s in b[c] && b[c][s] == a[c][s]
    {
      assert At(a, (c, s)) == Some(a[c][s]);
      assert At(b, (c, s)) == Some(a[c][s]);
    }
    var s :| s in a[c];
  }

  /** The votes alone determine the result, down to the chains it has maps for: the order in which
      votes, places and candidates are walked does not matter. */
  lemma HashConsensusUnique(aos: seq<AttributedObservation>, fChain: map<ChainSelector, nat>, a: MessageHashes,
                            b: MessageHashes)
    requires IsHashConsensus(aos, fChain, a) && IsHashConsensus(aos, fChain, b)
    ensures a == b
  {
    forall c | c in a || c in b
      ensures c in a && c in b && a[c] == b[c]
    {
      if c in a {
        ConsensusInside(aos, fChain, a, b, c);
        ConsensusInside(aos, fChain, b, a, c);
      } else {
        ConsensusInside(aos, fChain, b, a, c);
        ConsensusInside(aos, fChain, a, b, c);
      }
      assert a[c].Keys == b[c].Keys;
    }
  }

  /** The oracles that report h at p. */
  ghost function HashVoters(aos: seq<AttributedObservation>, p: Place, h: Bytes32): set<OracleId> {
    set i | 0 <= i < |aos| && Reports(aos[i].obs.hashes, p, h) :: aos[i].oracle
  }

  lemma HashVotersOfFront(aos: seq<AttributedObservation>, p: Place, h: Bytes32)
    requires aos != []
    ensures HashVoters(aos, p, h) ==
            HashVoters(aos[..|aos| - 1], p, h)
              + if Reports(aos[|aos| - 1].obs.hashes, p, h) then {aos[|aos| - 1].oracle} else {}
  {
    var front, last := aos[..|aos| - 1], aos[|aos| - 1];
    forall o | o in HashVoters(aos, p, h)
      ensures o in HashVoters(front, p, h) + if Reports(last.obs.hashes, p, h) then {last.oracle} else {}
    {
      var i :| 0 <= i < |aos| && Reports(aos[i].obs.hashes, p, h) && aos[i].oracle == o;
      if i < |front| {
        assert front[i] == aos[i];
      }
    }
  }

  /** With one observation per oracle, votes are oracles. */
  lemma {:induction false} VotesAreOracles(aos: seq<AttributedObservation>, p: Place, h: Bytes32)
    requires DistinctOracles(aos)
    ensures HashVotes(aos, p, h) == |HashVoters(aos, p, h)|
  {
    if aos != [] {
      var front, last := aos[..|aos| - 1], aos[|aos| - 1];
      VotesAreOracles(front, p, h);
      HashVotersOfFront(aos, p, h);
      assert last.oracle !in HashVoters(front, p, h);
    }
  }

  /** A hash with f + 1 votes has an honest one. */
  lemma HashHasHonestVote(aos: seq<AttributedObservation>, p: Place, f: nat, faulty: set<OracleId>, h: Bytes32)
    requires DistinctOracles(aos) && HashVotes(aos, p, h) >= f + 1
    requires |HashVoters(aos, p, h) * faulty| <= f
    ensures exists i :: 0 <= i < |aos| && aos[i].oracle !in faulty && Reports(aos[i].obs.hashes, p, h)
  {
    VotesAreOracles(aos, p, h);
    HonestRemainder(HashVoters(aos, p, h), faulty, f);
    assert |HashVoters(aos, p, h) - faulty| > 0;
    var o :| o in HashVoters(aos, p, h) - faulty;
  }

  /** If all honest oracles that report a hash at p report h and at most f faulty ones report any, the
      consensus there is h with f + 1 votes and nothing without. */
  lemma HonestDecide(aos: seq<AttributedObservation>, fChain: map<ChainSelector, nat>, r: MessageHashes, p: Place,
                     faulty: set<OracleId>, h: Bytes32)
    requires IsHashConsensus(aos, fChain, r) && DistinctOracles(aos) && p.0 in fChain
    requires forall g: Bytes32 :: |HashVoters(aos, p, g) * faulty| <= fChain[p.0]
    requires forall i, g: Bytes32 :: 0 <= i < |aos| && aos[i].oracle !in faulty && Reports(aos[i].obs.hashes, p, g) ==>
               g == h
    ensures At(r, p) == if HashVotes(aos, p, h) >= fChain[p.0] + 1 then Some(h) else None
  {
    var f := fChain[p.0];
    forall g: Bytes32 | HashVotes(aos, p, g) >= f + 1
      ensures g == h
    {
      HashHasHonestVote(aos, p, f, faulty, g);
    }
    if HashVotes(aos, p, h) >= f + 1 {
      assert OnlyHash(aos, p, f, h);
    } else {
      assert forall g: Bytes32 :: !OnlyHash(aos, p, f, g);
      assert forall g: Bytes32 :: At(r, p) != Some(g);
    }
  }
}
