/** Consensus on sender nonces: the f-th smallest of at least f + 1 observed values. */
module ExecNonces {
  import opened CcipTypes
  import opened Sorting
  import opened NestedMaps
  import opened Votes

  type Sender = nat

  /** A source chain and a sender on it. */
  type Pair = (ChainSelector, Sender)

  type NonceObservations = map<ChainSelector, map<Sender, SeqNum>>

  datatype AttributedNonces = AttributedNonces(oracle: OracleId, nonces: NonceObservations)

  /** The nonces observed for p, in the order of the observations. */
  function Observed(aos: seq<AttributedNonces>, p: Pair): seq<SeqNum> {
    if aos == [] then []
    else
      var nonce := At(aos[|aos| - 1].nonces, p);
      Observed(aos[..|aos| - 1], p) + if nonce.Some? then [nonce.value] else []
  }

  type Lists = map<Pair, seq<SeqNum>>

  function ListAt(lists: Lists, p: Pair): seq<SeqNum> {
    if p in lists then lists[p] else []
  }

  ghost predicate Appended(lists0: Lists, nonces: NonceObservations, lists: Lists) {
    && (forall p :: p in lists ==> lists[p] != [])
    && forall p :: ListAt(lists, p) == ListAt(lists0, p) + if At(nonces, p).Some? then [At(nonces, p).value] else []
  }

  method AppendChain(lists0: Lists, c: ChainSelector, nonces: map<Sender, SeqNum>) returns (lists: Lists)
    requires forall p :: p in lists0 ==> lists0[p] != []
    ensures Appended(lists0, map[c := nonces], lists)
  {
    lists := lists0;
    var rest := nonces.Keys;
    while rest != {}
      invariant rest <= nonces.Keys && Appended(lists0, map[c := nonces - rest], lists)
    {
      var sender :| sender in rest;
      ghost var before := lists;
      lists := lists[(c, sender) := ListAt(lists, (c, sender)) + [nonces[sender]]];
      forall p
        ensures ListAt(lists, p) ==
                ListAt(lists0, p) +
                (var n := At(map[c := nonces - (rest - {sender})], p); if n.Some? then [n.value] else [])
      {
        assert ListAt(before, p) ==
               ListAt(lists0, p) + (var n := At(map[c := nonces - rest], p); if n.Some? then [n.value] else []);
      }
      rest := rest - {sender};
    }
    assert nonces - rest == nonces;
  }

  lemma ChainOrRest(nonces: NonceObservations, rest: set<ChainSelector>, c: ChainSelector, p: Pair)
    requires c in rest && rest <= nonces.Keys
    ensures At(nonces - (rest - {c}), p) ==
            if p.0 == c then At(map[c := nonces[c]], p) else At(nonces - rest, p)
    ensures p.0 == c ==> At(nonces - rest, p) == None
    ensures p.0 != c ==> At(map[c := nonces[c]], p) == None
  {
  }

  lemma AppendedFurther(lists0: Lists, nonces: NonceObservations, rest: set<ChainSelector>, c: ChainSelector,
                        before: Lists, lists: Lists)
    requires c in rest && rest <= nonces.Keys
    requires Appended(lists0, nonces - rest, before) && Appended(before, map[c := nonces[c]], lists)
    ensures Appended(lists0, nonces - (rest - {c}), lists)
  {
    forall p
      ensures ListAt(lists, p) ==
              ListAt(lists0, p) + (var n := At(nonces - (rest - {c}), p); if n.Some? then [n.value] else [])
    {
      ChainOrRest(nonces, rest, c, p);
      assert ListAt(before, p) ==
             ListAt(lists0, p) + (var n := At(nonces - rest, p); if n.Some? then [n.value] else []);
    }
  }

  method AppendObservation(lists0: Lists, nonces: NonceObservations) returns (lists: Lists)
    requires forall p :: p in lists0 ==> lists0[p] != []
    ensures Appended(lists0, nonces, lists)
  {
    lists := lists0;
    var rest := nonces.Keys;
    while rest != {}
      invariant rest <= nonces.Keys && Appended(lists0, nonces - rest, lists)
    {
      var c :| c in rest;
      ghost var before := lists;
      lists := AppendChain(lists, c, nonces[c]);
      AppendedFurther(lists0, nonces, rest, c, before, lists);
      rest := rest - {c};
    }
    assert nonces - rest == nonces;
  }

  method CollectNonces(aos: seq<AttributedNonces>) returns (lists: Lists)
    ensures forall p :: ListAt(lists, p) == Observed(aos, p)
  {
    lists := map[];
    for i := 0 to |aos|
      invariant forall p :: p in lists ==> lists[p] != []
      invariant forall p :: ListAt(lists, p) == Observed(aos[..i], p)
    {
      assert aos[..i + 1][..i] == aos[..i];
      lists := AppendObservation(lists, aos[i].nonces);
    }
    assert aos[..|aos|] == aos;
  }

  /** The f-th smallest of the observed nonces, if there are more than f. */
  ghost function Agreed(aos: seq<AttributedNonces>, f: nat, p: Pair): Option<SeqNum> {
    if f < |Observed(aos, p)| then Some(Sort(Observed(aos, p))[f]) else None
  }

  method ComputeNoncesConsensus(aos: seq<AttributedNonces>, fChainDest: nat) returns (r: NonceObservations)
    ensures forall p :: At(r, p) == Agreed(aos, fChainDest, p)
  {
    var lists := CollectNonces(aos);
    r := map[];
    var rest := lists.Keys;
    forall p | p !in lists
      ensures At(r, p) == Agreed(aos, fChainDest, p)
    {
      assert ListAt(lists, p) == Observed(aos, p);
    }
    while rest != {}
      invariant rest <= lists.Keys
      invariant forall p :: p in rest ==> At(r, p) == None
      invariant forall p :: p !in rest ==> At(r, p) == Agreed(aos, fChainDest, p)
    {
      var p :| p in rest;
      rest := rest - {p};
      assert ListAt(lists, p) == Observed(aos, p);
      if fChainDest < |lists[p]| {
        var sorted := Sort(lists[p]);
        WithAt(r, p, sorted[fChainDest]);
        r := With(r, p, sorted[fChainDest]);
      }
    }
  }

  // ---------- what a nonce is worth ----------

  /** The observations about p as ballots on a single question. */
  ghost function Ballots(aos: seq<AttributedNonces>, p: Pair): seq<Ballot<SeqNum>> {
    seq(|aos|, i requires 0 <= i < |aos| =>
      Ballot(aos[i].oracle, if At(aos[i].nonces, p).Some? then [(0, At(aos[i].nonces, p).value)] else []))
  }

  lemma {:induction false} ObservedIsPooled(aos: seq<AttributedNonces>, p: Pair)
    ensures Observed(aos, p) == Pooled(Ballots(aos, p), 0)
  {
    if aos != [] {
      var front := aos[..|aos| - 1];
      ObservedIsPooled(front, p);
      var bs := Ballots(aos, p);
      assert bs[..|bs| - 1] == Ballots(front, p);
      var entries := bs[|bs| - 1].entries;
      if entries != [] {
        assert entries[..0] == [];
        assert Cast(entries, 0) == [entries[0].1];
      }
    }
  }

  ghost function Observers(aos: seq<AttributedNonces>): set<OracleId> {
    set i | 0 <= i < |aos| :: aos[i].oracle
  }

  /** The fault model for n observed nonces of p: one observation per oracle, at most F faulty observers,
      at most f faulty readers of the destination, and only readers among the honest oracles report
      nonces. No check looks at who reports one. */
  ghost predicate NonceRound(aos: seq<AttributedNonces>, F: nat, f: nat, p: Pair, readers: set<OracleId>,
                             faulty: set<OracleId>, n: nat) {
    && (forall i, j :: 0 <= i < j < |aos| ==> aos[i].oracle != aos[j].oracle)
    && |Observers(aos) * faulty| <= F && |readers * faulty| <= f
    && (forall i :: 0 <= i < |aos| && aos[i].oracle !in faulty + readers ==> At(aos[i].nonces, p).None?)
    && |Observed(aos, p)| == n
  }

  ghost predicate HonestNonce(aos: seq<AttributedNonces>, p: Pair, faulty: set<OracleId>, i: int) {
    0 <= i < |aos| && aos[i].oracle !in faulty && At(aos[i].nonces, p).Some?
  }

  /** Some honest oracle reports a nonce of at most v. */
  ghost predicate ReportedAtMost(aos: seq<AttributedNonces>, p: Pair, faulty: set<OracleId>, v: SeqNum) {
    exists i :: HonestNonce(aos, p, faulty, i) && At(aos[i].nonces, p).value <= v
  }

  /** Some honest oracle reports a nonce of at least v. */
  ghost predicate ReportedAtLeast(aos: seq<AttributedNonces>, p: Pair, faulty: set<OracleId>, v: SeqNum) {
    exists i :: HonestNonce(aos, p, faulty, i) && At(aos[i].nonces, p).value >= v
  }

  lemma BallotFacts(aos: seq<AttributedNonces>, p: Pair, faulty: set<OracleId>, i: int, k: int)
    requires HonestVote(Ballots(aos, p), 0, faulty, i, k)
    ensures HonestNonce(aos, p, faulty, i) && At(aos[i].nonces, p).value == Ballots(aos, p)[i].entries[k].1
  {
  }

  lemma HonestBallots(aos: seq<AttributedNonces>, p: Pair, faulty: set<OracleId>, v: SeqNum, bs: seq<Ballot<SeqNum>>)
    requires bs == Ballots(aos, p)
    ensures HonestAtMost(bs, 0, faulty, v) ==> ReportedAtMost(aos, p, faulty, v)
    ensures HonestAtLeast(bs, 0, faulty, v) ==> ReportedAtLeast(aos, p, faulty, v)
  {
    forall i, k | HonestVote(bs, 0, faulty, i, k)
      ensures HonestNonce(aos, p, faulty, i) && At(aos[i].nonces, p).value == bs[i].entries[k].1
    {
      BallotFacts(aos, p, faulty, i, k);
    }
  }

  lemma SpeakersObserve(aos: seq<AttributedNonces>, p: Pair)
    ensures Speakers(Ballots(aos, p), 0) <= Observers(aos)
  {
  }

  lemma OneBallotEach(aos: seq<AttributedNonces>, p: Pair)
    requires forall i, j :: 0 <= i < j < |aos| ==> aos[i].oracle != aos[j].oracle
    ensures OneVoteEach(Ballots(aos, p))
  {
  }

  /** An agreed nonce is not below every honest one if F <= f, and from f + F + 1 observations on not
      above every honest one. */
  lemma NonceIsBracketed(aos: seq<AttributedNonces>, F: nat, f: nat, p: Pair, readers: set<OracleId>,
                         faulty: set<OracleId>, n: nat)
    requires f < n && NonceRound(aos, F, f, p, readers, faulty, n)
    ensures F <= f ==> ReportedAtMost(aos, p, faulty, Agreed(aos, f, p).value)
    ensures n >= f + F + 1 ==> ReportedAtLeast(aos, p, faulty, Agreed(aos, f, p).value)
  {
    var bs := Ballots(aos, p);
    ObservedIsPooled(aos, p);
    SpeakersObserve(aos, p);
    SubsetSize(Speakers(bs, 0) * faulty, Observers(aos) * faulty);
    OneBallotEach(aos, p);
    HonestBounds(bs, 0, faulty, f, F);
    HonestBallots(aos, p, faulty, Agreed(aos, f, p).value, bs);
  }

  // ---------- the bounds are exact ----------

  /** An agreed nonce of n observed ones is never below every honest one. */
  ghost predicate NeverTooLow(F: nat, f: nat, n: nat)
    requires f < n
  {
    forall aos: seq<AttributedNonces>, p: Pair, readers: set<OracleId>, faulty: set<OracleId> ::
      NonceRound(aos, F, f, p, readers, faulty, n) ==> ReportedAtMost(aos, p, faulty, Agreed(aos, f, p).value)
  }

  /** An agreed nonce of n observed ones is never above every honest one. */
  ghost predicate NeverTooHigh(F: nat, f: nat, n: nat)
    requires f < n
  {
    forall aos: seq<AttributedNonces>, p: Pair, readers: set<OracleId>, faulty: set<OracleId> ::
      NonceRound(aos, F, f, p, readers, faulty, n) ==> ReportedAtLeast(aos, p, faulty, Agreed(aos, f, p).value)
  }

  /** Of n oracles the first k report nonce 1 for the sender and the others 2. */
  function TwoBlocks(n: nat, k: nat, p: Pair): seq<AttributedNonces>
    requires k <= n
  {
    seq(n, i requires 0 <= i < n => AttributedNonces(i, With<Sender, SeqNum>(map[], p, if i < k then 1 else 2)))
  }

  lemma TwoBlocksAt(n: nat, k: nat, p: Pair, i: nat)
    requires k <= n && i < n
    ensures At(TwoBlocks(n, k, p)[i].nonces, p) == Some(if i < k then 1 else 2)
  {
    WithAt<Sender, SeqNum>(map[], p, if i < k then 1 else 2);
  }

  lemma TwoBlocksBallots(n: nat, k: nat, p: Pair)
    requires k <= n
    ensures Ballots(TwoBlocks(n, k, p), p) == Blocks(n, k, 0)
  {
    forall i | 0 <= i < n
      ensures Ballots(TwoBlocks(n, k, p), p)[i] == Blocks(n, k, 0)[i]
    {
      TwoBlocksAt(n, k, p, i);
    }
  }

  /** The oracles from lo to hi - 1 are faulty and do not read the destination, the others do. */
  lemma TwoBlocksRound(n: nat, k: nat, p: Pair, lo: nat, hi: nat, F: nat, f: nat)
    requires k <= n && lo <= hi <= n && hi - lo <= F && f < n
    ensures NonceRound(TwoBlocks(n, k, p), F, f, p, Span(0, n) - Span(lo, hi), Span(lo, hi), n)
    ensures Agreed(TwoBlocks(n, k, p), f, p) == Some(if f < k then 1 else 2)
  {
    var aos, faulty := TwoBlocks(n, k, p), Span(lo, hi);
    TwoBlocksBallots(n, k, p);
    ObservedIsPooled(aos, p);
    BlocksPick(n, k, 0, f);
    SubsetSize(Observers(aos) * faulty, faulty);
    assert (Span(0, n) - faulty) * faulty == {};
  }

  /** With F > f, f + 1 faulty oracles alone push the agreed nonce of any sender below every honest one. */
  lemma FaultyDeflate(F: nat, f: nat, n: nat, p: Pair)
    requires f < n && F > f
    ensures NonceRound(TwoBlocks(n, f + 1, p), F, f, p, Span(0, n) - Span(0, f + 1), Span(0, f + 1), n)
    ensures Agreed(TwoBlocks(n, f + 1, p), f, p) == Some(1)
    ensures !ReportedAtMost(TwoBlocks(n, f + 1, p), p, Span(0, f + 1), 1)
  {
    var aos, faulty := TwoBlocks(n, f + 1, p), Span(0, f + 1);
    TwoBlocksRound(n, f + 1, p, 0, f + 1, F, f);
    forall i | HonestNonce(aos, p, faulty, i)
      ensures At(aos[i].nonces, p).value > 1
    {
      TwoBlocksAt(n, f + 1, p, i);
    }
  }

  /** With f + 1 to f + F observations n - f faulty oracles push it above every honest one. */
  lemma FaultyInflate(F: nat, f: nat, n: nat, p: Pair)
    requires f < n < f + F + 1
    ensures NonceRound(TwoBlocks(n, f, p), F, f, p, Span(0, n) - Span(f, n), Span(f, n), n)
    ensures Agreed(TwoBlocks(n, f, p), f, p) == Some(2)
    ensures !ReportedAtLeast(TwoBlocks(n, f, p), p, Span(f, n), 2)
  {
    TwoBlocksRound(n, f, p, f, n, F, f);
    forall i | HonestNonce(TwoBlocks(n, f, p), p, Span(f, n), i)
      ensures At(TwoBlocks(n, f, p)[i].nonces, p).value < 2
    {
      TwoBlocksAt(n, f, p, i);
    }
  }

  /** The lower bound on agreed nonces holds exactly if F <= f, for any number of observations. */
  lemma NeverTooLowExactly(F: nat, f: nat, n: nat)
    requires f < n
    ensures NeverTooLow(F, f, n) <==> F <= f
  {
    if F <= f {
      forall aos: seq<AttributedNonces>, p: Pair, readers: set<OracleId>, faulty: set<OracleId>
        | NonceRound(aos, F, f, p, readers, faulty, n)
        ensures ReportedAtMost(aos, p, faulty, Agreed(aos, f, p).value)
      {
        NonceIsBracketed(aos, F, f, p, readers, faulty, n);
      }
    } else {
      FaultyDeflate(F, f, n, (1, 1));
    }
  }

  /** The upper bound holds exactly from f + F + 1 observations on. */
  lemma NeverTooHighExactly(F: nat, f: nat, n: nat)
    requires f < n
    ensures NeverTooHigh(F, f, n) <==> n >= f + F + 1
  {
    if n >= f + F + 1 {
      forall aos: seq<AttributedNonces>, p: Pair, readers: set<OracleId>, faulty: set<OracleId>
        | NonceRound(aos, F, f, p, readers, faulty, n)
        ensures ReportedAtLeast(aos, p, faulty, Agreed(aos, f, p).value)
      {
        NonceIsBracketed(aos, F, f, p, readers, faulty, n);
      }
    } else {
      FaultyInflate(F, f, n, (1, 1));
    }
  }
}
