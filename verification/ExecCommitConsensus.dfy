/** Consensus on committed roots and on which of their messages are executed. */
module ExecCommitConsensus {
  import opened CcipTypes
  import opened Sorting
  import opened ExecTypes
  import opened ExecCommitVotes

  // ---------- the result ----------

  /** At least f + 1 votes for the root data. */
  ghost predicate Supported(aos: seq<AttributedObservation>, fChain: map<ChainSelector, nat>, k: RootData) {
    k.source in fChain && VotesFor(aos, k, None) >= fChain[k.source] + 1
  }

  /** Supported, and no other supported data has the same merkle root, on any chain. */
  ghost predicate Kept(aos: seq<AttributedObservation>, fChain: map<ChainSelector, nat>, k: RootData) {
    Supported(aos, fChain, k) && forall j :: Supported(aos, fChain, j) && j.merkleRoot == k.merkleRoot ==> j == k
  }

  /** The report of a kept root: its executed numbers in order, and nothing gathered yet. */
  ghost predicate IsEntry(aos: seq<AttributedObservation>, fChain: map<ChainSelector, nat>, c: ChainSelector,
                          d: CommitData) {
    && d.source == c && Kept(aos, fChain, KeyOf(c, d))
    && StrictlyIncreasing(d.executed)
    && (forall s: SeqNum :: s in d.executed <==> VotesFor(aos, KeyOf(c, d), Some(s)) >= fChain[c] + 1)
    && d.messages == [] && d.hashes == [] && d.tokenData == []
  }

  /** Some report of the list is about k. */
  ghost predicate Listed(c: ChainSelector, reports: seq<CommitData>, k: RootData) {
    exists i :: 0 <= i < |reports| && KeyOf(c, reports[i]) == k
  }

  /** Reports of one chain: entries only, none twice. */
  ghost predicate AreEntries(aos: seq<AttributedObservation>, fChain: map<ChainSelector, nat>, c: ChainSelector,
                             reports: seq<CommitData>) {
    && (forall i :: 0 <= i < |reports| ==> IsEntry(aos, fChain, c, reports[i]))
    && forall i, j :: 0 <= i < j < |reports| ==> KeyOf(c, reports[i]) != KeyOf(c, reports[j])
  }

  /** Every kept root has one report, under its chain, and there is nothing else; per chain the
      reports come by start of range. */
  ghost predicate IsCommitConsensus(aos: seq<AttributedObservation>, fChain: map<ChainSelector, nat>,
                                    r: CommitObservations) {
    && (forall c :: c in r ==>
           r[c] != [] && AreEntries(aos, fChain, c, r[c]) && SortedBy(r[c], (d: CommitData) => d.range.start as int))
    && forall k :: Kept(aos, fChain, k) ==> k.source in r && Listed(k.source, r[k.source], k)
  }

  // ---------- computing it ----------

  /** Those with f + 1 votes or more, in no particular order. */
  method SupportedRoots(ghost aos: seq<AttributedObservation>, t: Tables,
                        fChain: map<ChainSelector, nat>) returns (ks: seq<RootData>)
    requires AreTables(aos, t)
    ensures NoDuplicates(ks)
    ensures forall k :: k in ks <==> Supported(aos, fChain, k)
  {
    ks := [];
    var rest := t.roots.Keys;
    while rest != {}
      invariant rest <= t.roots.Keys && NoDuplicates(ks)
      invariant forall k :: k in ks <==>
                k in t.roots && k !in rest && k.source in fChain && t.roots[k] >= fChain[k.source] + 1
    {
      var k :| k in rest;
      rest := rest - {k};
      if k.source in fChain && t.roots[k] >= fChain[k.source] + 1 {
        ks := ks + [k];
      }
    }
    forall k
      ensures k in ks <==> Supported(aos, fChain, k)
    {
      assert Tally(t, k, None) == VotesFor(aos, k, None);
    }
  }

  /** How many of the data have the given merkle root. */
  ghost function Sharing(ks: seq<RootData>, root: Bytes32): nat {
    if ks == [] then 0 else Sharing(ks[..|ks| - 1], root) + if ks[|ks| - 1].merkleRoot == root then 1 else 0
  }

  method CountRoots(ks: seq<RootData>) returns (seen: map<Bytes32, nat>)
    ensures forall k :: k in ks ==> k.merkleRoot in seen
    ensures forall root :: root in seen ==> seen[root] == Sharing(ks, root)
  {
    seen := map[];
    for i := 0 to |ks|
      invariant forall k :: k in ks[..i] ==> k.merkleRoot in seen
      invariant forall root :: (if root in seen then seen[root] else 0) == Sharing(ks[..i], root)
    {
      assert ks[..i + 1][..i] == ks[..i];
      var root := ks[i].merkleRoot;
      seen := seen[root := (if root in seen then seen[root] else 0) + 1];
    }
    assert ks[..|ks|] == ks;
  }

  lemma {:induction false} SharingPositive(ks: seq<RootData>, i: nat)
    requires i < |ks|
    ensures Sharing(ks, ks[i].merkleRoot) >= 1
  {
    if i < |ks| - 1 {
      SharingPositive(ks[..|ks| - 1], i);
    }
  }

  lemma {:induction false} SharingTwo(ks: seq<RootData>, i: nat, j: nat)
    requires i < j < |ks| && ks[i].merkleRoot == ks[j].merkleRoot
    ensures Sharing(ks, ks[i].merkleRoot) >= 2
  {
    if j < |ks| - 1 {
      SharingTwo(ks[..|ks| - 1], i, j);
    } else {
      SharingPositive(ks[..|ks| - 1], i);
    }
  }

  lemma {:induction false} SharingOne(ks: seq<RootData>, i: nat)
    requires i < |ks| && forall j :: 0 <= j < |ks| && j != i ==> ks[j].merkleRoot != ks[i].merkleRoot
    ensures Sharing(ks, ks[i].merkleRoot) == 1
  {
    var front := ks[..|ks| - 1];
    if i < |ks| - 1 {
      SharingOne(front, i);
    } else {
      SharingNone(front, ks[i].merkleRoot);
    }
  }

  lemma {:induction false} SharingNone(ks: seq<RootData>, root: Bytes32)
    requires forall j :: 0 <= j < |ks| ==> ks[j].merkleRoot != root
    ensures Sharing(ks, root) == 0
  {
    if ks != [] {
      SharingNone(ks[..|ks| - 1], root);
    }
  }

  /** A merkle root that only one supported data has is one that is kept. */
  lemma OnceIsKept(aos: seq<AttributedObservation>, fChain: map<ChainSelector, nat>, ks: seq<RootData>, i: nat)
    requires NoDuplicates(ks) && i < |ks| && forall k :: k in ks <==> Supported(aos, fChain, k)
    ensures Sharing(ks, ks[i].merkleRoot) == 1 <==> Kept(aos, fChain, ks[i])
  {
    if Sharing(ks, ks[i].merkleRoot) == 1 {
      forall k | Supported(aos, fChain, k) && k.merkleRoot == ks[i].merkleRoot
        ensures k == ks[i]
      {
        assert k in ks;
        var j :| 0 <= j < |ks| && ks[j] == k;
        if i < j {
          SharingTwo(ks, i, j);
        } else if j < i {
          SharingTwo(ks, j, i);
        }
      }
      assert ks[i] in ks;
    }
    if Kept(aos, fChain, ks[i]) {
      assert forall j :: 0 <= j < |ks| ==> ks[j] in ks;
      SharingOne(ks, i);
    }
  }

  /** The data whose merkle root occurs once. */
  method KeptRoots(ghost aos: seq<AttributedObservation>, t: Tables,
                   fChain: map<ChainSelector, nat>) returns (kept: seq<RootData>)
    requires AreTables(aos, t)
    ensures NoDuplicates(kept)
    ensures forall k :: k in kept <==> Kept(aos, fChain, k)
  {
    var ks := SupportedRoots(aos, t, fChain);
    var seen := CountRoots(ks);
    kept := [];
    for i := 0 to |ks|
      invariant NoDuplicates(kept)
      invariant forall k :: k in kept <==> k in ks[..i] && Kept(aos, fChain, k)
    {
      assert ks[i] in ks;
      OnceIsKept(aos, fChain, ks, i);
      if seen[ks[i].merkleRoot] == 1 {
        assert ks[i] !in ks[..i];
        kept := kept + [ks[i]];
      }
    }
    assert ks[..|ks|] == ks;
  }

  /** The numbers with f + 1 votes or more, in ascending order. */
  method ExecutedNumbers(votes: map<SeqNum, nat>, f: nat) returns (executed: seq<SeqNum>)
    ensures StrictlyIncreasing(executed)
    ensures forall s :: s in executed <==> s in votes && votes[s] >= f + 1
  {
    executed := [];
    var rest := votes.Keys;
    while rest != {}
      invariant rest <= votes.Keys && NoDuplicates(executed)
      invariant forall s :: s in executed <==> s in votes && s !in rest && votes[s] >= f + 1
    {
      var s :| s in rest;
      rest := rest - {s};
      if votes[s] >= f + 1 {
        executed := executed + [s];
      }
    }
    var key := (v: SeqNum) => v as int;
    SortByDistinct(executed, key);
    SortByMembers(executed, key);
    executed := SortBy(executed, key);
  }

  /** The report of one kept root. */
  method EntryFor(ghost aos: seq<AttributedObservation>, t: Tables, fChain: map<ChainSelector, nat>,
                  k: RootData) returns (d: CommitData)
    requires AreTables(aos, t) && Kept(aos, fChain, k)
    ensures IsEntry(aos, fChain, k.source, d) && KeyOf(k.source, d) == k
  {
    assert Tally(t, k, None) == VotesFor(aos, k, None);
    var executed := ExecutedNumbers(t.executed[k], fChain[k.source]);
    d := CommitData(k.source, k.onRamp, k.timestamp, k.blockNum, k.merkleRoot, k.range, executed, [], [], []);
    forall s: SeqNum
      ensures s in executed <==> VotesFor(aos, k, Some(s)) >= fChain[k.source] + 1
    {
      assert Tally(t, k, Some(s)) == VotesFor(aos, k, Some(s));
    }
  }

  /** The reports of the first n kept roots are listed, and no others. */
  ghost predicate Collected(aos: seq<AttributedObservation>, fChain: map<ChainSelector, nat>, kept: seq<RootData>,
                            n: nat, r: CommitObservations)
    requires n <= |kept|
  {
    && (forall c :: c in r ==> r[c] != [] && AreEntries(aos, fChain, c, r[c]) && KeysAmong(c, r[c], kept[..n]))
    && forall i :: 0 <= i < n ==> kept[i].source in r && Listed(kept[i].source, r[kept[i].source], kept[i])
  }

  lemma EntriesAppend(aos: seq<AttributedObservation>, fChain: map<ChainSelector, nat>, c: ChainSelector,
                      before: seq<CommitData>, d: CommitData)
    requires AreEntries(aos, fChain, c, before) && IsEntry(aos, fChain, c, d)
    requires forall i :: 0 <= i < |before| ==> KeyOf(c, before[i]) != KeyOf(c, d)
    ensures AreEntries(aos, fChain, c, before + [d])
  {
  }

  lemma ListedAppend(c: ChainSelector, before: seq<CommitData>, d: CommitData)
    ensures forall k :: Listed(c, before, k) ==> Listed(c, before + [d], k)
    ensures Listed(c, before + [d], KeyOf(c, d))
  {
    forall k | Listed(c, before, k)
      ensures Listed(c, before + [d], k)
    {
      var j :| 0 <= j < |before| && KeyOf(c, before[j]) == k;
      assert (before + [d])[j] == before[j];
    }
    assert (before + [d])[|before|] == d;
  }

  /** The keys of the reports are among the first n kept. */
  ghost predicate KeysAmong(c: ChainSelector, reports: seq<CommitData>, some: seq<RootData>) {
    forall i :: 0 <= i < |reports| ==> KeyOf(c, reports[i]) in some
  }

  lemma KeysAmongMore(c: ChainSelector, reports: seq<CommitData>, kept: seq<RootData>, n: nat)
    requires n < |kept| && KeysAmong(c, reports, kept[..n])
    ensures KeysAmong(c, reports, kept[..n + 1])
  {
    assert forall k :: k in kept[..n] ==> k in kept[..n + 1];
  }

  lemma CollectChain(aos: seq<AttributedObservation>, fChain: map<ChainSelector, nat>, kept: seq<RootData>, n: nat,
                     before: seq<CommitData>, d: CommitData)
    requires n < |kept| && NoDuplicates(kept) && KeysAmong(kept[n].source, before, kept[..n])
    requires AreEntries(aos, fChain, kept[n].source, before)
    requires IsEntry(aos, fChain, kept[n].source, d) && KeyOf(kept[n].source, d) == kept[n]
    ensures AreEntries(aos, fChain, kept[n].source, before + [d])
    ensures KeysAmong(kept[n].source, before + [d], kept[..n + 1])
  {
    var c := kept[n].source;
    assert kept[n] !in kept[..n];
    EntriesAppend(aos, fChain, c, before, d);
    KeysAmongMore(c, before, kept, n);
    assert kept[..n + 1][n] == kept[n];
  }

  lemma CollectOne(aos: seq<AttributedObservation>, fChain: map<ChainSelector, nat>, kept: seq<RootData>, n: nat,
                   r: CommitObservations, d: CommitData, before: seq<CommitData>, r': CommitObservations)
    requires n < |kept| && NoDuplicates(kept) && Collected(aos, fChain, kept, n, r)
    requires IsEntry(aos, fChain, kept[n].source, d) && KeyOf(kept[n].source, d) == kept[n]
    requires before == if kept[n].source in r then r[kept[n].source] else []
    requires r' == r[kept[n].source := before + [d]]
    ensures Collected(aos, fChain, kept, n + 1, r')
  {
    var c := kept[n].source;
    CollectChain(aos, fChain, kept, n, before, d);
    forall e | e in r'
      ensures r'[e] != [] && AreEntries(aos, fChain, e, r'[e]) && KeysAmong(e, r'[e], kept[..n + 1])
    {
      if e != c {
        KeysAmongMore(e, r[e], kept, n);
      }
    }
    forall i | 0 <= i < n + 1
      ensures kept[i].source in r' && Listed(kept[i].source, r'[kept[i].source], kept[i])
    {
      if i < n {
        StillListed(c, before, d, r, r', kept[i]);
      } else {
        ListedAppend(c, before, d);
      }
    }
  }

  lemma StillListed(c: ChainSelector, before: seq<CommitData>, d: CommitData, r: CommitObservations,
                    r': CommitObservations, k: RootData)
    requires r' == r[c := before + [d]] && before == if c in r then r[c] else []
    requires k.source in r && Listed(k.source, r[k.source], k)
    ensures Listed(k.source, r'[k.source], k)
  {
    ListedAppend(c, before, d);
  }

  method CollectEntries(ghost aos: seq<AttributedObservation>, t: Tables, fChain: map<ChainSelector, nat>,
                        kept: seq<RootData>)
    returns (r: CommitObservations)
    requires AreTables(aos, t) && NoDuplicates(kept) && forall k :: k in kept <==> Kept(aos, fChain, k)
    ensures Collected(aos, fChain, kept, |kept|, r)
  {
    r := map[];
    for n := 0 to |kept|
      invariant Collected(aos, fChain, kept, n, r)
    {
      assert kept[n] in kept;
      var d := EntryFor(aos, t, fChain, kept[n]);
      var c := kept[n].source;
      var before := if c in r then r[c] else [];
      ghost var r0 := r;
      r := r[c := before + [d]];
      CollectOne(aos, fChain, kept, n, r0, d, before, r);
    }
  }

  /** Sorting the reports of a chain keeps what they are. */
  lemma SortedEntries(aos: seq<AttributedObservation>, fChain: map<ChainSelector, nat>, c: ChainSelector,
                      reports: seq<CommitData>, sorted: seq<CommitData>)
    requires AreEntries(aos, fChain, c, reports) && sorted == SortBy(reports, (d: CommitData) => d.range.start as int)
    ensures AreEntries(aos, fChain, c, sorted) && |sorted| == |reports|
    ensures SortedBy(sorted, (d: CommitData) => d.range.start as int)
    ensures forall k :: Listed(c, reports, k) ==> Listed(c, sorted, k)
  {
    var key := (d: CommitData) => d.range.start as int;
    SortByMembers(reports, key);
    SortByCorrect(reports, key);
    assert forall i :: 0 <= i < |sorted| ==> sorted[i] in reports;
    forall i, j | 0 <= i < j < |sorted|
      ensures KeyOf(c, sorted[i]) != KeyOf(c, sorted[j])
    {
      KeysStayDistinct(c, reports, sorted, i, j);
    }
    forall k | Listed(c, reports, k)
      ensures Listed(c, sorted, k)
    {
      var i :| 0 <= i < |reports| && KeyOf(c, reports[i]) == k;
      assert reports[i] in sorted;
    }
  }

  lemma KeysStayDistinct(c: ChainSelector, reports: seq<CommitData>, sorted: seq<CommitData>, i: nat, j: nat)
    requires forall i, j :: 0 <= i < j < |reports| ==> KeyOf(c, reports[i]) != KeyOf(c, reports[j])
    requires multiset(sorted) == multiset(reports) && i < j < |sorted|
    ensures KeyOf(c, sorted[i]) != KeyOf(c, sorted[j])
  {
    assert sorted[i] in multiset(reports) && sorted[j] in multiset(reports);
    var a :| 0 <= a < |reports| && reports[a] == sorted[i];
    var b :| 0 <= b < |reports| && reports[b] == sorted[j];
    if a == b {
      Twice(sorted, i, j);
      OnceOnly(reports, sorted[i]);
    }
  }

  /** The reports of a chain in order, with all that were listed before. */
  ghost predicate SortedChain(aos: seq<AttributedObservation>, fChain: map<ChainSelector, nat>, c: ChainSelector,
                              reports: seq<CommitData>, sorted: seq<CommitData>) {
    && sorted != [] && AreEntries(aos, fChain, c, sorted) && SortedBy(sorted, (d: CommitData) => d.range.start as int)
    && forall k :: Listed(c, reports, k) ==> Listed(c, sorted, k)
  }

  lemma AllSorted(aos: seq<AttributedObservation>, fChain: map<ChainSelector, nat>, kept: seq<RootData>,
                  r0: CommitObservations, r: CommitObservations)
    requires Collected(aos, fChain, kept, |kept|, r0) && forall k :: k in kept <==> Kept(aos, fChain, k)
    requires r.Keys == r0.Keys && forall c :: c in r ==> SortedChain(aos, fChain, c, r0[c], r[c])
    ensures IsCommitConsensus(aos, fChain, r)
  {
    forall k | Kept(aos, fChain, k)
      ensures k.source in r && Listed(k.source, r[k.source], k)
    {
      assert k in kept;
      var i :| 0 <= i < |kept| && kept[i] == k;
      assert Listed(kept[i].source, r0[kept[i].source], kept[i]);
      assert SortedChain(aos, fChain, k.source, r0[k.source], r[k.source]);
    }
  }

  method SortChain(ghost aos: seq<AttributedObservation>, ghost fChain: map<ChainSelector, nat>,
                   ghost c: ChainSelector, reports: seq<CommitData>)
    returns (sorted: seq<CommitData>)
    requires reports != [] && AreEntries(aos, fChain, c, reports)
    ensures SortedChain(aos, fChain, c, reports, sorted)
  {
    sorted := SortBy(reports, (d: CommitData) => d.range.start as int);
    SortedEntries(aos, fChain, c, reports, sorted);
  }

  /** sort.Slice on each chain's reports. */
  method SortEntries(ghost aos: seq<AttributedObservation>, ghost fChain: map<ChainSelector, nat>,
                     ghost kept: seq<RootData>, r0: CommitObservations)
    returns (r: CommitObservations)
    requires Collected(aos, fChain, kept, |kept|, r0) && forall k :: k in kept <==> Kept(aos, fChain, k)
    ensures IsCommitConsensus(aos, fChain, r)
  {
    r := r0;
    var rest := r0.Keys;
    while rest != {}
      invariant rest <= r0.Keys && r.Keys == r0.Keys
      invariant forall c :: c in rest ==> r[c] == r0[c]
      invariant forall c :: c in r && c !in rest ==> SortedChain(aos, fChain, c, r0[c], r[c])
    {
      var c :| c in rest;
      rest := rest - {c};
      var sorted := SortChain(aos, fChain, c, r[c]);
      r := r[c := sorted];
    }
    AllSorted(aos, fChain, kept, r0, r);
  }

  method ComputeCommitObservationsConsensus(aos: seq<AttributedObservation>, fChain: map<ChainSelector, nat>)
    returns (r: CommitObservations)
    ensures IsCommitConsensus(aos, fChain, r)
  {
    var t := AggregateMerkleRootObservations(aos);
    var kept := KeptRoots(aos, t, fChain);
    var collected := CollectEntries(aos, t, fChain, kept);
    r := SortEntries(aos, fChain, kept, collected);
  }
}
