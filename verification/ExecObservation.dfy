/** The messages phase of the execute plugin: how an honest oracle builds its observation, and why
    the checks accept it wherever it is cut off. */
module ExecObservation {
  import opened CcipTypes
  import opened Sums
  import opened ExecTypes
  import opened ExecValidation

  const LENIENT_MAX_MSGS_PER_OBS := 100

  /** What the oracle reads and computes: the messages of a range, their hashes and token data, the
      messages it knows to be in flight, the size of an encoded observation, and the f of the chains.
      Reads, hashes and encodings may fail. */
  datatype Environment = Environment(
    supported: set<ChainSelector>,
    messages: (ChainSelector, SeqNumRange) -> Option<seq<Message>>,
    hash: Message -> Option<Bytes32>,
    tokenData: Message -> MessageTokenData,
    inflight: set<(ChainSelector, Bytes32)>,
    encodedSize: Observation -> Option<nat>,
    maxSize: nat,
    fChain: map<ChainSelector, nat>)

  ghost function Numbers(msgs: seq<Message>): set<SeqNum> {
    set i | 0 <= i < |msgs| :: msgs[i].seqNum
  }

  lemma NumbersGrow(msgs: seq<Message>, n: nat)
    requires n < |msgs|
    ensures Numbers(msgs[..n + 1]) == Numbers(msgs[..n]) + {msgs[n].seqNum}
  {
  }

  /** As many different numbers as the length says, and every number of the range among them. */
  ghost predicate Conforms(msgs: seq<Message>, range: SeqNumRange) {
    |Numbers(msgs)| == range.Length() && range.Nums() <= Numbers(msgs)
  }

  /** For a range that is not reversed, conforming means to have exactly its numbers; a range of 2^63
      numbers or more has a length that no count of messages equals. */
  lemma ConformsExactly(msgs: seq<Message>, range: SeqNumRange)
    requires range.start <= range.end
    ensures Conforms(msgs, range) <==> Numbers(msgs) == range.Nums() && range.Size() < 0x8000_0000_0000_0000
  {
    NumsSize(range);
    LengthIsSize(range);
    if Conforms(msgs, range) {
      assert range.Size() < 0x8000_0000_0000_0000 by {
        assert range.start in Numbers(msgs);
      }
      SameSizeSubset(range.Nums(), Numbers(msgs));
    }
  }

  /** The count and the scan of the range. The scan of a reversed range finds nothing missing. */
  method MsgsConformToSeqRange(msgs: seq<Message>, range: SeqNumRange) returns (ok: bool)
    requires range.end < MAX_SEQ_NUM
    ensures ok <==> Conforms(msgs, range)
  {
    var seen: set<SeqNum> := {};
    for i := 0 to |msgs|
      invariant seen == Numbers(msgs[..i])
    {
      seen := seen + {msgs[i].seqNum};
    }
    assert msgs[..|msgs|] == msgs;
    if |seen| != range.Length() {
      return false;
    }
    var i: int := range.start;
    while i <= range.end
      invariant range.start <= i
      invariant forall s: SeqNum :: range.start <= s < i && s <= range.end ==> s in seen
    {
      var s: SeqNum := i;
      if s !in seen {
        assert s in range.Nums();
        return false;
      }
      i := i + 1;
    }
    assert range.Nums() <= seen;
    return true;
  }

  /** The read succeeds and finds exactly the numbers of the report. */
  ghost predicate Readable(env: Environment, report: CommitData) {
    && env.messages(report.source, report.range).Some?
    && Numbers(env.messages(report.source, report.range).value) == report.range.Nums()
    && report.range.Size() < 0x8000_0000_0000_0000
  }

  method ReadMessagesForReport(env: Environment, report: CommitData) returns (msgs: Option<seq<Message>>)
    requires report.range.end < MAX_SEQ_NUM
    ensures msgs.Some? <==> env.messages(report.source, report.range).Some?
                            && Conforms(env.messages(report.source, report.range).value, report.range)
    ensures report.range.start <= report.range.end ==> (msgs.Some? <==> Readable(env, report))
    ensures msgs.Some? ==> msgs == env.messages(report.source, report.range)
  {
    msgs := env.messages(report.source, report.range);
    if msgs.Some? {
      if report.range.start <= report.range.end {
        ConformsExactly(msgs.value, report.range);
      }
      var ok := MsgsConformToSeqRange(msgs.value, report.range);
      if !ok {
        msgs := None;
      }
    }
  }

  // ---------- what the observation looks like at any time ----------

  /** An entry that carries more than id and number. */
  predicate IsFull(m: Message) {
    m.content.Some?
  }

  ghost function FullEntries(msgs: MessageObservations): set<(ChainSelector, SeqNum)> {
    set c, s | c in msgs && s in msgs[c] && IsFull(msgs[c][s]) :: (c, s)
  }

  /** What chain c may have under number s: a message with that number, full only if it is neither
      in flight nor executed. */
  ghost predicate GoodEntry(env: Environment, c: ChainSelector, reports: seq<CommitData>, s: SeqNum, m: Message) {
    && m.seqNum == s
    && (IsFull(m) ==> (c, m.id) !in env.inflight && forall i :: 0 <= i < |reports| ==> s !in reports[i].executed)
  }

  /** One chain: an entry for exactly the covered numbers, and a good one. */
  ghost predicate GoodChain(env: Environment, c: ChainSelector, reports: seq<CommitData>, msgs: map<SeqNum, Message>,
                            hashes: map<SeqNum, Bytes32>, tokenData: map<SeqNum, MessageTokenData>) {
    && c in env.supported
    && DisjointReports(reports)
    && (forall i :: 0 <= i < |reports| ==> reports[i].source == c)
    && msgs.Keys == Covered(reports) && hashes.Keys == msgs.Keys && tokenData.Keys == msgs.Keys
    && forall s :: s in msgs ==> GoodEntry(env, c, reports, s, msgs[s])
  }

  ghost predicate SameChains(obs: Observation) {
    obs.commitReports.Keys == obs.messages.Keys == obs.hashes.Keys == obs.tokenData.Keys
  }

  ghost predicate GoodAt(env: Environment, obs: Observation, c: ChainSelector)
    requires SameChains(obs) && c in obs.messages
  {
    GoodChain(env, c, obs.commitReports[c], obs.messages[c], obs.hashes[c], obs.tokenData[c])
  }

  /** The same chains everywhere, and every one of them good. */
  ghost predicate GoodObservation(env: Environment, obs: Observation) {
    SameChains(obs) && forall c :: c in obs.messages ==> GoodAt(env, obs, c)
  }

  /** The reports that an outcome may hand on: non-empty ranges, and per chain different roots,
      disjoint ranges and executed numbers in range. */
  ghost predicate GoodReports(reports: seq<CommitData>) {
    && (forall i :: 0 <= i < |reports| ==>
          reports[i].range.start <= reports[i].range.end < MAX_SEQ_NUM && ExecutedInRange(reports[i]))
    && forall i, j :: 0 <= i < j < |reports| && reports[i].source == reports[j].source ==>
         reports[i].merkleRoot != reports[j].merkleRoot && !reports[i].range.Overlaps(reports[j].range)
  }

  lemma GoodAtFacts(env: Environment, obs: Observation, c: ChainSelector)
    requires SameChains(obs) && c in obs.messages && GoodAt(env, obs, c)
    ensures c in env.supported && DisjointReports(obs.commitReports[c])
    ensures forall i :: 0 <= i < |obs.commitReports[c]| ==> obs.commitReports[c][i].source == c
    ensures obs.messages[c].Keys == Covered(obs.commitReports[c]) == obs.hashes[c].Keys == obs.tokenData[c].Keys
  {
  }

  lemma GoodReportsPart(env: Environment, obs: Observation)
    requires GoodObservation(env, obs)
    ensures ReportsEligible(env.supported, obs.commitReports)
    ensures ValidSequenceNumbers(obs.commitReports)
  {
    forall c | c in obs.commitReports
      ensures c in env.supported && DisjointReports(obs.commitReports[c])
      ensures forall i :: 0 <= i < |obs.commitReports[c]| ==> obs.commitReports[c][i].source == c
    {
      assert c in obs.messages;
      GoodAtFacts(env, obs, c);
    }
  }

  lemma GoodMessagesPart(env: Environment, obs: Observation)
    requires GoodObservation(env, obs)
    ensures ReadingEligible(env.supported, obs.messages)
    ensures ExactlyCovered(obs.commitReports, obs.messages)
    ensures TokenDataMatches(obs.messages, obs.tokenData)
    ensures forall c :: c in obs.messages ==> obs.messages[c].Keys == obs.hashes[c].Keys
  {
    forall c | c in obs.messages
      ensures c in env.supported
      ensures obs.messages[c].Keys == Covered(obs.commitReports[c]) == obs.hashes[c].Keys == obs.tokenData[c].Keys
    {
      GoodAtFacts(env, obs, c);
    }
  }

  /** Every observed message has a hash that is not empty. */
  ghost predicate HashesNonEmpty(obs: Observation) {
    forall c, s :: c in obs.hashes && s in obs.hashes[c] ==> obs.hashes[c][s] != EMPTY_BYTES32
  }

  lemma GoodHashesPart(env: Environment, obs: Observation)
    requires GoodObservation(env, obs)
    ensures HashesMatch(obs.messages, obs.hashes) <==> HashesNonEmpty(obs)
  {
    GoodMessagesPart(env, obs);
  }

  /** The checks accept a good observation exactly if none of its hashes is empty and every f is positive. */
  lemma GoodObservationIsValid(env: Environment, obs: Observation)
    requires GoodObservation(env, obs)
    ensures ValidMessagesObservation(env.supported, obs) <==> HashesNonEmpty(obs) && PositiveF(obs.fChain)
  {
    GoodReportsPart(env, obs);
    GoodMessagesPart(env, obs);
    GoodHashesPart(env, obs);
    CountCheckIsExact(obs.commitReports, obs.messages);
  }

  // ---------- adding a report ----------

  function ReportsOf(m: CommitObservations, c: ChainSelector): seq<CommitData> {
    if c in m then m[c] else []
  }

  /** m is m0 with new values under the numbers in nums, and unchanged elsewhere. */
  ghost predicate UpdatedAt<V(!new)>(m0: map<SeqNum, V>, nums: set<SeqNum>, m: map<SeqNum, V>) {
    m.Keys == m0.Keys + nums && forall s :: s in m0 && s !in nums ==> m[s] == m0[s]
  }

  /** The stubs of the messages of a report. */
  method AddStubs(msgs: seq<Message>, m0: map<SeqNum, Message>) returns (m: map<SeqNum, Message>)
    ensures UpdatedAt(m0, Numbers(msgs), m)
    ensures forall s :: s in Numbers(msgs) ==> StubOf(msgs, s, m[s])
  {
    m := m0;
    for i := 0 to |msgs|
      invariant UpdatedAt(m0, Numbers(msgs[..i]), m)
      invariant forall s :: s in Numbers(msgs[..i]) ==> StubOf(msgs[..i], s, m[s])
    {
      NumbersGrow(msgs, i);
      StubsGrow(msgs, i);
      m := m[msgs[i].seqNum := Stub(msgs[i])];
    }
    assert msgs[..|msgs|] == msgs;
  }

  /** Empty token data for the messages of a report. */
  method AddEmptyTokenData(msgs: seq<Message>,
                           t0: map<SeqNum, MessageTokenData>) returns (t: map<SeqNum, MessageTokenData>)
    ensures UpdatedAt(t0, Numbers(msgs), t)
    ensures forall s :: s in Numbers(msgs) ==> t[s] == []
  {
    t := t0;
    for i := 0 to |msgs|
      invariant UpdatedAt(t0, Numbers(msgs[..i]), t)
      invariant forall s :: s in Numbers(msgs[..i]) ==> t[s] == []
    {
      NumbersGrow(msgs, i);
      t := t[msgs[i].seqNum := []];
    }
    assert msgs[..|msgs|] == msgs;
  }

  /** Why no observation could be made: the message that was handled, and what could not be encoded. */
  datatype Failure = UnableToHash(msg: Message) | UnableToEncode(msg: Message, obs: Observation)

  datatype Result<+T> = Ok(value: T) | Err(error: Failure)

  /** The failure is about a message of the list: it has no hash, or the observation it was put into
      cannot be encoded. */
  predicate Fails(env: Environment, c: ChainSelector, msgs: seq<Message>, error: Failure) {
    && error.msg in msgs
    && match error
       case UnableToHash(msg) => env.hash(msg).None?
       case UnableToEncode(msg, obs) =>
         env.encodedSize(obs).None? && c in obs.messages && msg.seqNum in obs.messages[c]
           && obs.messages[c][msg.seqNum] == msg
  }

  /** The hashes of the messages of a report; one that cannot be hashed fails the observation. */
  method AddHashes(env: Environment, msgs: seq<Message>,
                   h0: map<SeqNum, Bytes32>) returns (h: Result<map<SeqNum, Bytes32>>)
    ensures h.Ok? ==> UpdatedAt(h0, Numbers(msgs), h.value)
    ensures h.Ok? ==> forall s :: s in Numbers(msgs) ==> HashOf(env, msgs, s, h.value[s])
    ensures h.Err? ==> h.error.UnableToHash? && h.error.msg in msgs && env.hash(h.error.msg).None?
  {
    var m: map<SeqNum, Bytes32> := h0;
    for i := 0 to |msgs|
      invariant UpdatedAt(h0, Numbers(msgs[..i]), m)
      invariant forall s :: s in Numbers(msgs[..i]) ==> HashOf(env, msgs[..i], s, m[s])
    {
      var hash := env.hash(msgs[i]);
      if hash.None? {
        return Err(UnableToHash(msgs[i]));
      }
      NumbersGrow(msgs, i);
      HashesGrow(env, msgs, i);
      m := m[msgs[i].seqNum := hash.value];
    }
    assert msgs[..|msgs|] == msgs;
    h := Ok(m);
  }

  /** Message k is the last one with number s. */
  ghost predicate LastWith(msgs: seq<Message>, s: SeqNum, k: int) {
    0 <= k < |msgs| && msgs[k].seqNum == s && forall i :: k < i < |msgs| ==> msgs[i].seqNum != s
  }

  lemma LastStays(msgs: seq<Message>, n: nat, s: SeqNum, k: int)
    requires n < |msgs| && LastWith(msgs[..n], s, k) && msgs[n].seqNum != s
    ensures LastWith(msgs[..n + 1], s, k) && msgs[..n + 1][k] == msgs[..n][k]
  {
  }

  lemma LastIsLast(msgs: seq<Message>, n: nat)
    requires n < |msgs|
    ensures LastWith(msgs[..n + 1], msgs[n].seqNum, n) && msgs[..n + 1][n] == msgs[n]
  {
  }

  ghost predicate StubOf(msgs: seq<Message>, s: SeqNum, m: Message) {
    exists k :: LastWith(msgs, s, k) && m == Stub(msgs[k])
  }

  lemma StubsGrow(msgs: seq<Message>, n: nat)
    requires n < |msgs|
    ensures forall s, m :: StubOf(msgs[..n], s, m) && s != msgs[n].seqNum ==> StubOf(msgs[..n + 1], s, m)
    ensures StubOf(msgs[..n + 1], msgs[n].seqNum, Stub(msgs[n]))
  {
    forall s, m | StubOf(msgs[..n], s, m) && s != msgs[n].seqNum
      ensures StubOf(msgs[..n + 1], s, m)
    {
      var k :| LastWith(msgs[..n], s, k) && m == Stub(msgs[..n][k]);
      LastStays(msgs, n, s, k);
    }
    LastIsLast(msgs, n);
  }

  ghost predicate HashOf(env: Environment, msgs: seq<Message>, s: SeqNum, h: Bytes32) {
    exists k :: LastWith(msgs, s, k) && env.hash(msgs[k]) == Some(h)
  }

  lemma HashesGrow(env: Environment, msgs: seq<Message>, n: nat)
    requires n < |msgs|
    ensures forall s, h: Bytes32 :: HashOf(env, msgs[..n], s, h) && s != msgs[n].seqNum ==>
              HashOf(env, msgs[..n + 1], s, h)
    ensures env.hash(msgs[n]).Some? ==> HashOf(env, msgs[..n + 1], msgs[n].seqNum, env.hash(msgs[n]).value)
  {
    forall s, h: Bytes32 | HashOf(env, msgs[..n], s, h) && s != msgs[n].seqNum
      ensures HashOf(env, msgs[..n + 1], s, h)
    {
      var k :| LastWith(msgs[..n], s, k) && env.hash(msgs[..n][k]) == Some(h);
      LastStays(msgs, n, s, k);
    }
    LastIsLast(msgs, n);
  }

  /** A report goes with the earlier ones of its chain: disjoint from them, with another root. */
  ghost predicate Fits(reports: seq<CommitData>, report: CommitData) {
    && ExecutedInRange(report)
    && forall i :: 0 <= i < |reports| ==>
         reports[i].merkleRoot != report.merkleRoot && !reports[i].range.Overlaps(report.range)
  }

  /** Numbers covered so far are not covered, nor executed, by a report that fits. */
  lemma FitsApart(reports: seq<CommitData>, report: CommitData, s: SeqNum)
    requires Fits(reports, report) && s in Covered(reports)
    ensures !report.range.Contains(s) && s !in report.executed
  {
    CoveredBy(reports, s);
    var i :| 0 <= i < |reports| && reports[i].range.Contains(s);
    assert !reports[i].range.Overlaps(report.range);
  }

  lemma OldEntryStaysGood(env: Environment, c: ChainSelector, reports: seq<CommitData>, report: CommitData, s: SeqNum,
                          m: Message)
    requires GoodEntry(env, c, reports, s, m) && Fits(reports, report) && s in Covered(reports)
    ensures GoodEntry(env, c, reports + [report], s, m)
  {
    FitsApart(reports, report, s);
  }

  lemma DisjointExtend(reports: seq<CommitData>, report: CommitData)
    requires DisjointReports(reports) && Fits(reports, report)
    ensures DisjointReports(reports + [report])
    ensures Covered(reports + [report]) == Covered(reports) + report.range.Nums()
  {
    assert (reports + [report])[..|reports|] == reports;
  }

  /** Stubs for a report that fits keep its chain good. */
  lemma StubbedChainIsGood(env: Environment, c: ChainSelector, reports: seq<CommitData>, report: CommitData,
                           msgs: seq<Message>,
                           m0: map<SeqNum, Message>, h0: map<SeqNum, Bytes32>, t0: map<SeqNum, MessageTokenData>,
                           m: map<SeqNum, Message>, h: map<SeqNum, Bytes32>, t: map<SeqNum, MessageTokenData>)
    requires GoodChain(env, c, reports, m0, h0, t0)
    requires report.source == c && Fits(reports, report)
    requires Numbers(msgs) == report.range.Nums()
    requires UpdatedAt(m0, Numbers(msgs), m) && UpdatedAt(h0, Numbers(msgs), h) && UpdatedAt(t0, Numbers(msgs), t)
    requires forall s :: s in Numbers(msgs) ==> StubOf(msgs, s, m[s])
    ensures GoodChain(env, c, reports + [report], m, h, t)
  {
    DisjointExtend(reports, report);
    forall s | s in m
      ensures GoodEntry(env, c, reports + [report], s, m[s])
    {
      if s !in Numbers(msgs) {
        OldEntryStaysGood(env, c, reports, report, s, m0[s]);
      }
    }
  }

  /** The reports of chain c in the observation are among those handled so far. */
  ghost predicate ReportsFrom(obs: Observation, handled: seq<CommitData>) {
    forall c, i :: c in obs.commitReports && 0 <= i < |obs.commitReports[c]| ==> obs.commitReports[c][i] in handled
  }

  lemma ReportFits(env: Environment, obs: Observation, reports: seq<CommitData>, k: nat)
    requires GoodReports(reports) && k < |reports|
    requires GoodObservation(env, obs) && ReportsFrom(obs, reports[..k])
    ensures Fits(ReportsOf(obs.commitReports, reports[k].source), reports[k])
  {
    var c := reports[k].source;
    forall i | 0 <= i < |ReportsOf(obs.commitReports, c)|
      ensures ReportsOf(obs.commitReports, c)[i].merkleRoot != reports[k].merkleRoot
      ensures !ReportsOf(obs.commitReports, c)[i].range.Overlaps(reports[k].range)
    {
      assert c in obs.messages;
      GoodAtFacts(env, obs, c);
      assert obs.commitReports[c][i] in reports[..k];
      var j :| 0 <= j < k && reports[j] == obs.commitReports[c][i];
      assert reports[j].source == c;
    }
  }

  /** The observation with everything about chain c replaced. */
  function WithChain(obs: Observation, c: ChainSelector, reports: seq<CommitData>, m: map<SeqNum, Message>,
                     h: map<SeqNum, Bytes32>, t: map<SeqNum, MessageTokenData>): Observation {
    Observation(obs.commitReports[c := reports], obs.messages[c := m], obs.hashes[c := h], obs.tokenData[c := t],
                obs.fChain)
  }

  /** obs' is obs with the given contents for chain c. */
  ghost predicate Replaced(obs: Observation, c: ChainSelector, reports: seq<CommitData>, m: map<SeqNum, Message>,
                           h: map<SeqNum, Bytes32>, t: map<SeqNum, MessageTokenData>, obs': Observation) {
    && obs'.commitReports == obs.commitReports[c := reports]
    && obs'.messages == obs.messages[c := m]
    && obs'.hashes == obs.hashes[c := h]
    && obs'.tokenData == obs.tokenData[c := t]
    && obs'.fChain == obs.fChain
  }

  lemma ReplacedKeys(obs: Observation, c: ChainSelector, reports: seq<CommitData>, m: map<SeqNum, Message>,
                     h: map<SeqNum, Bytes32>, t: map<SeqNum, MessageTokenData>, obs': Observation)
    requires SameChains(obs) && Replaced(obs, c, reports, m, h, t, obs')
    ensures SameChains(obs') && obs'.messages.Keys == obs.messages.Keys + {c}
  {
    assert obs'.commitReports.Keys == obs.commitReports.Keys + {c};
    assert obs'.messages.Keys == obs.messages.Keys + {c};
    assert obs'.hashes.Keys == obs.hashes.Keys + {c};
    assert obs'.tokenData.Keys == obs.tokenData.Keys + {c};
  }

  lemma WithGoodChain(env: Environment, obs: Observation, c: ChainSelector, reports: seq<CommitData>,
                      m: map<SeqNum, Message>,
                      h: map<SeqNum, Bytes32>, t: map<SeqNum, MessageTokenData>, obs': Observation)
    requires GoodObservation(env, obs) && GoodChain(env, c, reports, m, h, t)
    requires Replaced(obs, c, reports, m, h, t, obs')
    ensures GoodObservation(env, obs')
  {
    ReplacedKeys(obs, c, reports, m, h, t, obs');
    ChainReplaced(env, obs', c, reports, m, h, t);
    forall d | d in obs'.messages
      ensures GoodAt(env, obs', d)
    {
      if d != c {
        ChainUnchanged(env, obs, obs', d);
      }
    }
  }

  lemma ChainReplaced(env: Environment, obs: Observation, c: ChainSelector, reports: seq<CommitData>,
                      m: map<SeqNum, Message>,
                      h: map<SeqNum, Bytes32>, t: map<SeqNum, MessageTokenData>)
    requires SameChains(obs) && c in obs.messages && GoodChain(env, c, reports, m, h, t)
    requires obs.commitReports[c] == reports && obs.messages[c] == m && obs.hashes[c] == h && obs.tokenData[c] == t
    ensures GoodAt(env, obs, c)
  {
  }

  lemma ChainUnchanged(env: Environment, obs: Observation, obs': Observation, d: ChainSelector)
    requires SameChains(obs) && SameChains(obs') && d in obs.messages && d in obs'.messages && GoodAt(env, obs, d)
    requires obs'.commitReports[d] == obs.commitReports[d] && obs'.messages[d] == obs.messages[d]
    requires obs'.hashes[d] == obs.hashes[d] && obs'.tokenData[d] == obs.tokenData[d]
    ensures GoodAt(env, obs', d)
  {
  }

  lemma ChainIsGood(env: Environment, obs: Observation, c: ChainSelector)
    requires GoodObservation(env, obs) && c in env.supported
    ensures GoodChain(env, c, ReportsOf(obs.commitReports, c), On(obs.messages, c), On(obs.hashes, c),
                      On(obs.tokenData, c))
  {
    if c in obs.messages {
      assert GoodAt(env, obs, c);
    } else {
      assert Covered([]) == {};
    }
  }

  lemma StubsAddNoFull(obs: Observation, c: ChainSelector, nums: set<SeqNum>, msgs: seq<Message>,
                       m: map<SeqNum, Message>)
    requires UpdatedAt(On(obs.messages, c), nums, m)
    requires forall s :: s in nums ==> StubOf(msgs, s, m[s])
    ensures FullEntries(obs.messages[c := m]) <= FullEntries(obs.messages)
  {
  }
}
