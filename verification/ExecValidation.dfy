/** The checks an observation of the execute plugin has to pass, and what they establish together. */
module ExecValidation {
  import opened CcipTypes
  import opened Sorting
  import opened Sums
  import opened ExecTypes
  import Consensus

  // ---------- commit reports ----------

  ghost predicate ExecutedInRange(d: CommitData) {
    forall k :: 0 <= k < |d.executed| ==> d.range.Contains(d.executed[k])
  }

  /** Different roots, no two ranges overlap, and executed numbers lie in their range. */
  ghost predicate DisjointReports(reports: seq<CommitData>) {
    && (forall i, j :: 0 <= i < j < |reports| ==>
          reports[i].merkleRoot != reports[j].merkleRoot && !reports[i].range.Overlaps(reports[j].range))
    && forall i :: 0 <= i < |reports| ==> ExecutedInRange(reports[i])
  }

  ghost predicate ValidSequenceNumbers(observed: CommitObservations) {
    forall c :: c in observed ==> DisjointReports(observed[c])
  }

  method CheckReports(reports: seq<CommitData>) returns (ok: bool)
    ensures ok <==> DisjointReports(reports)
  {
    var roots: set<Bytes32> := {};
    var ranges: seq<SeqNumRange> := [];
    for i := 0 to |reports|
      invariant roots == set k | 0 <= k < i :: reports[k].merkleRoot
      invariant |ranges| == i && forall k :: 0 <= k < i ==> ranges[k] == reports[k].range
      invariant DisjointReports(reports[..i])
    {
      if reports[i].merkleRoot in roots {
        return false;
      }
      roots := roots + {reports[i].merkleRoot};
      for k := 0 to |ranges|
        invariant forall j :: 0 <= j < k ==> !reports[j].range.Overlaps(reports[i].range)
      {
        if ranges[k].Overlaps(reports[i].range) {
          return false;
        }
      }
      ranges := ranges + [reports[i].range];
      for k := 0 to |reports[i].executed|
        invariant forall j :: 0 <= j < k ==> reports[i].range.Contains(reports[i].executed[j])
      {
        if !reports[i].range.Contains(reports[i].executed[k]) {
          return false;
        }
      }
    }
    assert reports[..|reports|] == reports;
    return true;
  }

  method ValidateObservedSequenceNumbers(observed: CommitObservations) returns (ok: bool)
    ensures ok <==> ValidSequenceNumbers(observed)
  {
    var rest := observed.Keys;
    while rest != {}
      invariant rest <= observed.Keys
      invariant forall c :: c in observed && c !in rest ==> DisjointReports(observed[c])
    {
      var c :| c in rest;
      rest := rest - {c};
      ok := CheckReports(observed[c]);
      if !ok {
        return false;
      }
    }
    return true;
  }

  // ---------- messages against reports ----------

  /** The loops over ranges count in 64 bits, so a range must not end at the last number. */
  ghost predicate Countable(observed: CommitObservations) {
    forall c, i :: c in observed && 0 <= i < |observed[c]| ==> observed[c][i].range.end < MAX_SEQ_NUM
  }

  ghost function SizeSum(reports: seq<CommitData>): nat {
    if reports == [] then 0 else SizeSum(reports[..|reports| - 1]) + reports[|reports| - 1].range.Size()
  }

  ghost function Sizes(observed: CommitObservations): map<ChainSelector, nat> {
    map c | c in observed :: SizeSum(observed[c])
  }

  ghost function Counts<V>(msgs: map<ChainSelector, map<SeqNum, V>>): map<ChainSelector, nat> {
    map c | c in msgs :: |msgs[c]|
  }

  /** What the check compares: every number of every range is observed, and the totals agree. */
  ghost predicate CountsConform(observed: CommitObservations, msgs: MessageObservations) {
    && |observed| == |msgs|
    && (forall c :: c in observed ==> ChainObserved(observed, msgs, c))
    && Total(Sizes(observed)) == Total(Counts(msgs))
  }

  /** Counts the numbers of the ranges as long as all of them are observed. */
  method CountRange(range: SeqNumRange, msgs: map<SeqNum, Message>) returns (ok: bool, count: nat)
    requires range.end < MAX_SEQ_NUM
    ensures ok <==> range.Nums() <= msgs.Keys
    ensures ok ==> count == range.Size()
  {
    count := 0;
    var seqNum: int := range.start;
    while seqNum <= range.end
      invariant range.start <= seqNum
      invariant if range.start <= range.end then seqNum <= range.end + 1 else seqNum == range.start
      invariant count == seqNum - range.start
      invariant forall s: SeqNum :: range.start <= s < seqNum ==> s in msgs
    {
      var s: SeqNum := seqNum;
      if s !in msgs {
        assert s in range.Nums();
        return false, count;
      }
      count := count + 1;
      seqNum := seqNum + 1;
    }
    forall s | s in range.Nums()
      ensures s in msgs.Keys
    {
      assert range.Contains(s);
    }
    return true, count;
  }

  method CountReports(reports: seq<CommitData>, msgs: map<SeqNum, Message>) returns (ok: bool, count: nat)
    requires forall i :: 0 <= i < |reports| ==> reports[i].range.end < MAX_SEQ_NUM
    ensures ok <==> Covered(reports) <= msgs.Keys
    ensures ok ==> count == SizeSum(reports)
  {
    count := 0;
    for i := 0 to |reports|
      invariant Covered(reports[..i]) <= msgs.Keys
      invariant count == SizeSum(reports[..i])
    {
      assert reports[..i + 1][..i] == reports[..i];
      var all, n := CountRange(reports[i].range, msgs);
      if !all {
        ghost var s :| s in reports[i].range.Nums() && s !in msgs.Keys;
        assert reports[i].range.Contains(s);
        CoveredBy(reports, s);
        return false, count;
      }
      count := count + n;
    }
    assert reports[..|reports|] == reports;
    return true, count;
  }

  /** All messages of all chains, in no particular order. */
  method Flatten(msgs: MessageObservations) returns (all: seq<Message>)
    ensures |all| == Total(Counts(msgs))
  {
    all := [];
    var rest := msgs.Keys;
    TotalEnds(Counts(msgs));
    while rest != {}
      invariant rest <= msgs.Keys
      invariant |all| == Total(Counts(msgs) - rest)
    {
      var c :| c in rest;
      TotalStep(Counts(msgs), rest, c);
      rest := rest - {c};
      var some := Values(msgs[c]);
      all := all + some;
    }
  }

  method Values(msgs: map<SeqNum, Message>) returns (vs: seq<Message>)
    ensures |vs| == |msgs|
  {
    vs := [];
    var rest := msgs.Keys;
    while rest != {}
      invariant rest <= msgs.Keys
      invariant |vs| + |rest| == |msgs|
    {
      var s :| s in rest;
      rest := rest - {s};
      vs := vs + [msgs[s]];
    }
  }

  /** Every number of every range of chain c is observed. */
  ghost predicate ChainObserved(observed: CommitObservations, msgs: MessageObservations, c: ChainSelector)
    requires c in observed
  {
    c in msgs && Covered(observed[c]) <= msgs[c].Keys
  }

  method CountChains(observed: CommitObservations, msgs: MessageObservations) returns (ok: bool, count: nat)
    requires Countable(observed)
    ensures ok <==> forall c :: c in observed ==> ChainObserved(observed, msgs, c)
    ensures ok ==> count == Total(Sizes(observed))
  {
    count := 0;
    var rest := observed.Keys;
    TotalEnds(Sizes(observed));
    while rest != {}
      invariant rest <= observed.Keys
      invariant forall c :: c in observed && c !in rest ==> ChainObserved(observed, msgs, c)
      invariant count == Total(Sizes(observed) - rest)
    {
      var c :| c in rest;
      TotalStep(Sizes(observed), rest, c);
      rest := rest - {c};
      if c !in msgs {
        assert !ChainObserved(observed, msgs, c);
        return false, count;
      }
      var all, n := CountReports(observed[c], msgs[c]);
      if !all {
        assert !ChainObserved(observed, msgs, c);
        return false, count;
      }
      count := count + n;
    }
    return true, count;
  }

  method ValidateMessagesConformToCommitReports(observed: CommitObservations,
                                                msgs: MessageObservations) returns (ok: bool)
    requires Countable(observed)
    ensures ok <==> CountsConform(observed, msgs)
  {
    if |observed| != |msgs| {
      return false;
    }
    var all, count := CountChains(observed, msgs);
    if !all {
      return false;
    }
    var flat := Flatten(msgs);
    return count == |flat|;
  }

  // ---------- the count suffices because the ranges are disjoint ----------

  /** The observed numbers of every chain are exactly those its reports cover. */
  ghost predicate ExactlyCovered(observed: CommitObservations, msgs: MessageObservations) {
    && observed.Keys == msgs.Keys
    && forall c :: c in observed ==> msgs[c].Keys == Covered(observed[c])
  }

  lemma {:induction false} DisjointSizes(reports: seq<CommitData>)
    requires DisjointReports(reports)
    ensures |Covered(reports)| == SizeSum(reports)
  {
    if reports != [] {
      var front, last := reports[..|reports| - 1], reports[|reports| - 1];
      DisjointSizes(front);
      NumsSize(last.range);
      forall s | s in Covered(front)
        ensures s !in last.range.Nums()
      {
        CoveredBy(front, s);
        var i :| 0 <= i < |front| && front[i].range.Contains(s);
        assert !reports[i].range.Overlaps(last.range);
      }
    }
  }

  lemma SameKeys(observed: CommitObservations, msgs: MessageObservations)
    requires |observed| == |msgs|
    requires forall c :: c in observed ==> c in msgs
    ensures observed.Keys == msgs.Keys
  {
    SameSizeSubset(observed.Keys, msgs.Keys);
  }

  lemma SizesBelowCounts(observed: CommitObservations, msgs: MessageObservations, c: ChainSelector)
    requires ValidSequenceNumbers(observed) && c in observed && c in msgs
    requires Covered(observed[c]) <= msgs[c].Keys
    ensures Sizes(observed)[c] == |Covered(observed[c])| <= Counts(msgs)[c]
  {
    DisjointSizes(observed[c]);
    SubsetSize(Covered(observed[c]), msgs[c].Keys);
  }

  lemma CountCheckIsSound(observed: CommitObservations, msgs: MessageObservations)
    requires ValidSequenceNumbers(observed) && CountsConform(observed, msgs)
    ensures ExactlyCovered(observed, msgs)
  {
    SameKeys(observed, msgs);
    forall c | c in observed
      ensures Sizes(observed)[c] == |Covered(observed[c])| <= Counts(msgs)[c]
    {
      SizesBelowCounts(observed, msgs, c);
    }
    TotalMonotone(Sizes(observed), Counts(msgs));
    forall c | c in observed
      ensures msgs[c].Keys == Covered(observed[c])
    {
      assert Sizes(observed)[c] == Counts(msgs)[c];
      SameSizeSubset(Covered(observed[c]), msgs[c].Keys);
    }
  }

  lemma CountCheckIsComplete(observed: CommitObservations, msgs: MessageObservations)
    requires ValidSequenceNumbers(observed) && ExactlyCovered(observed, msgs)
    ensures CountsConform(observed, msgs)
  {
    forall c | c in observed
      ensures Sizes(observed)[c] == Counts(msgs)[c]
    {
      SizesBelowCounts(observed, msgs, c);
    }
    assert Sizes(observed) == Counts(msgs);
    assert |observed| == |observed.Keys| && |msgs| == |msgs.Keys|;
  }

  /** Given disjoint reports, the count check passes exactly when the observed numbers of every
      chain are the union of its ranges: no message is missing and none is added. */
  lemma CountCheckIsExact(observed: CommitObservations, msgs: MessageObservations)
    requires ValidSequenceNumbers(observed)
    ensures CountsConform(observed, msgs) <==> ExactlyCovered(observed, msgs)
  {
    if CountsConform(observed, msgs) {
      CountCheckIsSound(observed, msgs);
    }
    if ExactlyCovered(observed, msgs) {
      CountCheckIsComplete(observed, msgs);
    }
  }

  lemma TwoReports(a: CommitData, b: CommitData)
    ensures Covered([a, b]) == a.range.Nums() + b.range.Nums()
    ensures SizeSum([a, b]) == a.range.Size() + b.range.Size()
  {
    assert [a, b][..1] == [a] && [a][..0] == [];
    assert Covered([a]) == a.range.Nums() && SizeSum([a]) == a.range.Size();
  }

  /** A report of the range [1, 1] with the given root. */
  function ReportOfOne(root: Bytes32): CommitData {
    CommitData(3, 0, 0, 0, root, SeqNumRange(1, 1), [], [], [], [])
  }

  /** Without disjointness it is not exact: two reports of [1, 1] let a message 7 slip in. */
  lemma CountCheckNeedsDisjointness(observed: CommitObservations, msgs: MessageObservations)
    requires observed == map[3 := [ReportOfOne(10), ReportOfOne(11)]]
    requires msgs == map[3 := map[1 := Message(1, 1, None), 7 := Message(7, 7, None)]]
    ensures Countable(observed) && CountsConform(observed, msgs) && !ExactlyCovered(observed, msgs)
  {
    TwoReports(ReportOfOne(10), ReportOfOne(11));
    assert SeqNumRange(1, 1).Nums() == {1};
    assert msgs[3].Keys == {1, 7};
    assert Sizes(observed)[3] == 2 && Counts(msgs)[3] == 2;
    assert Sizes(observed) == Counts(msgs);
    assert observed.Keys == {3} && msgs.Keys == {3};
    assert 7 in msgs[3].Keys && 7 !in Covered(observed[3]);
  }

  // ---------- hashes and token data ----------

  /** A non-empty hash for every observed message and for nothing else. */
  ghost predicate HashesMatch(msgs: MessageObservations, hashes: MessageHashes) {
    && msgs.Keys == hashes.Keys
    && forall c :: c in msgs ==>
         && msgs[c].Keys == hashes[c].Keys
         && forall s :: s in hashes[c] ==> hashes[c][s] != EMPTY_BYTES32
  }

  /** Token data for every observed message and for nothing else. */
  ghost predicate TokenDataMatches(msgs: MessageObservations, tokenData: TokenDataObservations) {
    && msgs.Keys == tokenData.Keys
    && forall c :: c in msgs ==> msgs[c].Keys == tokenData[c].Keys
  }

  method CheckHashes(msgs: map<SeqNum, Message>, hashes: map<SeqNum, Bytes32>) returns (ok: bool)
    ensures ok <==> msgs.Keys == hashes.Keys && forall s :: s in hashes ==> hashes[s] != EMPTY_BYTES32
  {
    if |msgs| != |hashes| {
      assert |msgs.Keys| != |hashes.Keys|;
      return false;
    }
    var rest := msgs.Keys;
    while rest != {}
      invariant rest <= msgs.Keys
      invariant forall s :: s in msgs && s !in rest ==> s in hashes && hashes[s] != EMPTY_BYTES32
    {
      var s :| s in rest;
      rest := rest - {s};
      if s !in hashes || hashes[s] == EMPTY_BYTES32 {
        return false;
      }
    }
    SameSizeSubset(msgs.Keys, hashes.Keys);
    return true;
  }

  method ValidateHashesExist(msgs: MessageObservations, hashes: MessageHashes) returns (ok: bool)
    ensures ok <==> HashesMatch(msgs, hashes)
  {
    if |msgs| != |hashes| {
      assert |msgs.Keys| != |hashes.Keys|;
      return false;
    }
    var rest := msgs.Keys;
    while rest != {}
      invariant rest <= msgs.Keys
      invariant forall c :: c in msgs && c !in rest ==>
                  c in hashes && msgs[c].Keys == hashes[c].Keys && forall s :: s in hashes[c] ==>
                      hashes[c][s] != EMPTY_BYTES32
    {
      var c :| c in rest;
      rest := rest - {c};
      if c !in hashes {
        return false;
      }
      ok := CheckHashes(msgs[c], hashes[c]);
      if !ok {
        return false;
      }
    }
    SameSizeSubset(msgs.Keys, hashes.Keys);
    return true;
  }

  method CheckTokenData(msgs: map<SeqNum, Message>, tokenData: map<SeqNum, MessageTokenData>) returns (ok: bool)
    ensures ok <==> msgs.Keys == tokenData.Keys
  {
    if |msgs| != |tokenData| {
      assert |msgs.Keys| != |tokenData.Keys|;
      return false;
    }
    var rest := msgs.Keys;
    while rest != {}
      invariant rest <= msgs.Keys
      invariant forall s :: s in msgs && s !in rest ==> s in tokenData
    {
      var s :| s in rest;
      rest := rest - {s};
      if s !in tokenData {
        return false;
      }
    }
    SameSizeSubset(msgs.Keys, tokenData.Keys);
    return true;
  }

  method ValidateTokenDataObservations(msgs: MessageObservations, tokenData: TokenDataObservations) returns (ok: bool)
    ensures ok <==> TokenDataMatches(msgs, tokenData)
  {
    if |msgs| != |tokenData| {
      assert |msgs.Keys| != |tokenData.Keys|;
      return false;
    }
    var rest := msgs.Keys;
    while rest != {}
      invariant rest <= msgs.Keys
      invariant forall c :: c in msgs && c !in rest ==> c in tokenData && msgs[c].Keys == tokenData[c].Keys
    {
      var c :| c in rest;
      rest := rest - {c};
      if c !in tokenData {
        return false;
      }
      ok := CheckTokenData(msgs[c], tokenData[c]);
      if !ok {
        return false;
      }
    }
    SameSizeSubset(msgs.Keys, tokenData.Keys);
    return true;
  }

  // ---------- who may read what ----------

  ghost predicate ReadingEligible(supported: set<ChainSelector>, msgs: MessageObservations) {
    forall c :: c in msgs && msgs[c] != map[] ==> c in supported
  }

  ghost predicate ReportsEligible(supported: set<ChainSelector>, observed: CommitObservations) {
    && (forall c, i :: c in observed && 0 <= i < |observed[c]| && observed[c][i].messages != [] ==> c in supported)
    && forall c, i :: c in observed && 0 <= i < |observed[c]| ==> observed[c][i].source == c
  }

  /** Every f is positive. */
  ghost predicate PositiveF(fChain: map<ChainSelector, nat>) {
    forall c :: c in fChain ==> fChain[c] > 0
  }

  /** Everything that ValidateObservation asks of an observation of the messages phase. */
  ghost predicate ValidMessagesObservation(supported: set<ChainSelector>, obs: Observation) {
    && PositiveF(obs.fChain)
    && ReportsEligible(supported, obs.commitReports)
    && ValidSequenceNumbers(obs.commitReports)
    && ReadingEligible(supported, obs.messages)
    && CountsConform(obs.commitReports, obs.messages)
    && HashesMatch(obs.messages, obs.hashes)
    && TokenDataMatches(obs.messages, obs.tokenData)
  }

  method CheckReadingEligibility(supported: set<ChainSelector>, msgs: MessageObservations) returns (ok: bool)
    ensures ok <==> ReadingEligible(supported, msgs)
  {
    var rest := msgs.Keys;
    while rest != {}
      invariant rest <= msgs.Keys
      invariant forall c :: c in msgs && c !in rest && msgs[c] != map[] ==> c in supported
    {
      var c :| c in rest;
      rest := rest - {c};
      if |msgs[c]| != 0 && c !in supported {
        return false;
      }
    }
    return true;
  }

  /** One chain: its own reports only, and messages in them only if the chain is supported. */
  ghost predicate ChainEligible(supported: set<ChainSelector>, c: ChainSelector, reports: seq<CommitData>) {
    && (forall i :: 0 <= i < |reports| && reports[i].messages != [] ==> c in supported)
    && forall i :: 0 <= i < |reports| ==> reports[i].source == c
  }

  method CheckChainEligibility(supported: set<ChainSelector>, c: ChainSelector,
                               reports: seq<CommitData>) returns (ok: bool)
    ensures ok <==> ChainEligible(supported, c, reports)
  {
    for i := 0 to |reports|
      invariant ChainEligible(supported, c, reports[..i])
    {
      if (|reports[i].messages| > 0 && c !in supported) || reports[i].source != c {
        return false;
      }
    }
    assert reports[..|reports|] == reports;
    return true;
  }

  /** Two loops over the chains in the code, one here: the verdict is their conjunction. */
  method CheckReportsEligibility(supported: set<ChainSelector>, observed: CommitObservations) returns (ok: bool)
    ensures ok <==> ReportsEligible(supported, observed)
  {
    var rest := observed.Keys;
    while rest != {}
      invariant rest <= observed.Keys
      invariant forall c :: c in observed && c !in rest ==> ChainEligible(supported, c, observed[c])
    {
      var c :| c in rest;
      rest := rest - {c};
      ok := CheckChainEligibility(supported, c, observed[c]);
      if !ok {
        return false;
      }
    }
    return true;
  }

  /** The checks of the messages phase in their order. */
  method ValidateMessagesObservation(supported: set<ChainSelector>, obs: Observation) returns (ok: bool)
    requires Countable(obs.commitReports)
    ensures ok <==> ValidMessagesObservation(supported, obs)
    ensures ok ==> ExactlyCovered(obs.commitReports, obs.messages)
  {
    ok := Consensus.ValidateFChain(obs.fChain);
    if ok {
      ok := CheckReportsEligibility(supported, obs.commitReports);
    }
    if ok {
      ok := ValidateObservedSequenceNumbers(obs.commitReports);
    }
    if ok {
      ok := CheckReadingEligibility(supported, obs.messages);
    }
    if ok {
      ok := ValidateMessagesConformToCommitReports(obs.commitReports, obs.messages);
    }
    if ok {
      ok := ValidateHashesExist(obs.messages, obs.hashes);
    }
    if ok {
      ok := ValidateTokenDataObservations(obs.messages, obs.tokenData);
    }
    if ok {
      CountCheckIsExact(obs.commitReports, obs.messages);
    }
  }

  // ---------- the phase that agrees on commit reports ----------

  /** Whoever observes a root that is not empty reads the destination. */
  ghost predicate DestRead(supported: set<ChainSelector>, dest: ChainSelector, observed: CommitObservations) {
    forall c, i :: c in observed && 0 <= i < |observed[c]| && observed[c][i].merkleRoot != EMPTY_BYTES32 ==>
      dest in supported
  }

  ghost predicate OwnChains(observed: CommitObservations) {
    forall c, i :: c in observed && 0 <= i < |observed[c]| ==> observed[c][i].source == c
  }

  /** Everything that ValidateObservation asks of an observation of commit reports. */
  ghost predicate ValidCommitsObservation(supported: set<ChainSelector>, dest: ChainSelector, obs: Observation) {
    && obs.messages == map[] && obs.tokenData == map[] && obs.hashes == map[]
    && PositiveF(obs.fChain)
    && DestRead(supported, dest, obs.commitReports)
    && OwnChains(obs.commitReports)
    && ValidSequenceNumbers(obs.commitReports)
  }

  method CheckDestRead(supported: set<ChainSelector>, dest: ChainSelector, observed: CommitObservations)
    returns (ok: bool)
    ensures ok <==> DestRead(supported, dest, observed)
  {
    var rest := observed.Keys;
    while rest != {}
      invariant rest <= observed.Keys
      invariant forall c, i :: c in observed && c !in rest && 0 <= i < |observed[c]|
                               && observed[c][i].merkleRoot != EMPTY_BYTES32 ==>
                  dest in supported
    {
      var c :| c in rest;
      for i := 0 to |observed[c]|
        invariant forall k :: 0 <= k < i && observed[c][k].merkleRoot != EMPTY_BYTES32 ==> dest in supported
      {
        if observed[c][i].merkleRoot == EMPTY_BYTES32 {
          continue;
        }
        if dest !in supported {
          return false;
        }
      }
      rest := rest - {c};
    }
    return true;
  }

  method CheckOwnChains(observed: CommitObservations) returns (ok: bool)
    ensures ok <==> OwnChains(observed)
  {
    var rest := observed.Keys;
    while rest != {}
      invariant rest <= observed.Keys
      invariant forall c, i :: c in observed && c !in rest && 0 <= i < |observed[c]| ==> observed[c][i].source == c
    {
      var c :| c in rest;
      for i := 0 to |observed[c]|
        invariant forall k :: 0 <= k < i ==> observed[c][k].source == c
      {
        if observed[c][i].source != c {
          return false;
        }
      }
      rest := rest - {c};
    }
    return true;
  }

  /** The checks of the phase in their order. */
  method ValidateCommitsObservation(supported: set<ChainSelector>, dest: ChainSelector, obs: Observation)
    returns (ok: bool)
    ensures ok <==> ValidCommitsObservation(supported, dest, obs)
  {
    if |obs.messages| > 0 || |obs.tokenData| > 0 || |obs.hashes| > 0 {
      return false;
    }
    ok := Consensus.ValidateFChain(obs.fChain);
    if ok {
      ok := CheckDestRead(supported, dest, obs.commitReports);
    }
    if ok {
      ok := CheckOwnChains(obs.commitReports);
    }
    if ok {
      ok := ValidateObservedSequenceNumbers(obs.commitReports);
    }
  }
}
