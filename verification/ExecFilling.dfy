/** Building the observation of the messages phase: a report enters with stubs for all its messages,
    then messages replace stubs until a limit is reached. */
module ExecFilling {
  import opened CcipTypes
  import opened ExecTypes
  import opened ExecValidation
  import opened ExecObservation

  // ---------- where the entries come from ----------

  /** A message that was read for chain c, whatever the range. */
  ghost predicate Read(env: Environment, c: ChainSelector, x: Message) {
    exists range: SeqNumRange :: env.messages(c, range).Some? && x in env.messages(c, range).value
  }

  /** An entry: a message that was read, or its stub; the hash of a message with its number; and its
      token data, which a stub may lack. */
  ghost predicate Sourced(env: Environment, c: ChainSelector, s: SeqNum, m: Message, h: Bytes32, t: MessageTokenData) {
    && (exists x :: Read(env, c, x) && (m == x || m == Stub(x)))
    && (exists x :: Read(env, c, x) && x.seqNum == s && env.hash(x) == Some(h))
    && (t == env.tokenData(m) || (t == [] && !IsFull(m)))
  }

  ghost predicate HasEntry(obs: Observation, c: ChainSelector, s: SeqNum) {
    c in obs.messages && s in obs.messages[c] && c in obs.hashes && s in obs.hashes[c] && c in obs.tokenData
      && s in obs.tokenData[c]
  }

  ghost predicate AllSourced(env: Environment, obs: Observation) {
    forall c, s :: HasEntry(obs, c, s) ==> Sourced(env, c, s, obs.messages[c][s], obs.hashes[c][s], obs.tokenData[c][s])
  }

  /** The entry under number s of chain c is the same in both. */
  ghost predicate SameEntry(obs: Observation, obs': Observation, c: ChainSelector, s: SeqNum)
    requires HasEntry(obs, c, s)
  {
    && HasEntry(obs', c, s)
    && obs'.messages[c][s] == obs.messages[c][s] && obs'.hashes[c][s] == obs.hashes[c][s]
    && obs'.tokenData[c][s] == obs.tokenData[c][s]
  }

  /** Nothing but the numbers nums of chain c is touched. */
  ghost predicate OnlyTouches(obs: Observation, obs': Observation, c: ChainSelector, nums: set<SeqNum>) {
    forall d, s :: HasEntry(obs, d, s) && !(d == c && s in nums) ==> SameEntry(obs, obs', d, s)
  }

  // ---------- adding a report ----------

  lemma StubSourced(env: Environment, c: ChainSelector, range: SeqNumRange, msgs: seq<Message>, s: SeqNum, m: Message,
                    h: Bytes32)
    requires env.messages(c, range) == Some(msgs)
    requires StubOf(msgs, s, m) && HashOf(env, msgs, s, h)
    ensures Sourced(env, c, s, m, h, [])
  {
    var i :| LastWith(msgs, s, i) && m == Stub(msgs[i]);
    assert Read(env, c, msgs[i]);
    var k :| LastWith(msgs, s, k) && env.hash(msgs[k]) == Some(h);
    assert Read(env, c, msgs[k]);
  }

  /** What adding the stubs of a report to the maps of its chain gives. */
  ghost predicate Stubbed(env: Environment, msgs: seq<Message>, m0: map<SeqNum, Message>, h0: map<SeqNum, Bytes32>,
                          t0: map<SeqNum, MessageTokenData>,
                          m: map<SeqNum, Message>, h: map<SeqNum, Bytes32>, t: map<SeqNum, MessageTokenData>) {
    && UpdatedAt(m0, Numbers(msgs), m) && UpdatedAt(h0, Numbers(msgs), h) && UpdatedAt(t0, Numbers(msgs), t)
    && (forall s :: s in Numbers(msgs) ==> StubOf(msgs, s, m[s]))
    && (forall s :: s in Numbers(msgs) ==> HashOf(env, msgs, s, h[s]))
    && forall s :: s in Numbers(msgs) ==> t[s] == []
  }

  method AddStubEntries(env: Environment, msgs: seq<Message>, m0: map<SeqNum, Message>, h0: map<SeqNum, Bytes32>,
                        t0: map<SeqNum, MessageTokenData>)
    returns (r: Result<(map<SeqNum, Message>, map<SeqNum, Bytes32>, map<SeqNum, MessageTokenData>)>)
    ensures r.Ok? ==> Stubbed(env, msgs, m0, h0, t0, r.value.0, r.value.1, r.value.2)
    ensures r.Err? ==> r.error.UnableToHash? && r.error.msg in msgs && env.hash(r.error.msg).None?
  {
    var h := AddHashes(env, msgs, h0);
    if h.Err? {
      return Err(h.error);
    }
    var m := AddStubs(msgs, m0);
    var t := AddEmptyTokenData(msgs, t0);
    r := Ok((m, h.value, t));
  }

  lemma StubbedTouches(obs: Observation, c: ChainSelector, nums: set<SeqNum>, reports: seq<CommitData>,
                       m: map<SeqNum, Message>, h: map<SeqNum, Bytes32>, t: map<SeqNum, MessageTokenData>,
                       obs': Observation)
    requires UpdatedAt(On(obs.messages, c), nums, m) && UpdatedAt(On(obs.hashes, c), nums, h)
    requires UpdatedAt(On(obs.tokenData, c), nums, t)
    requires Replaced(obs, c, reports, m, h, t, obs')
    ensures OnlyTouches(obs, obs', c, nums)
  {
  }

  lemma StubbedSourced(env: Environment, obs: Observation, report: CommitData, msgs: seq<Message>,
                       reports: seq<CommitData>,
                       m: map<SeqNum, Message>, h: map<SeqNum, Bytes32>, t: map<SeqNum, MessageTokenData>,
                       obs': Observation)
    requires AllSourced(env, obs) && SameChains(obs)
    requires forall c :: c in obs.messages ==> obs.messages[c].Keys == obs.hashes[c].Keys == obs.tokenData[c].Keys
    requires env.messages(report.source, report.range) == Some(msgs)
    requires Stubbed(env, msgs, On(obs.messages, report.source), On(obs.hashes, report.source),
                     On(obs.tokenData, report.source), m, h, t)
    requires Replaced(obs, report.source, reports, m, h, t, obs')
    ensures AllSourced(env, obs')
  {
    var c := report.source;
    StubbedTouches(obs, c, Numbers(msgs), reports, m, h, t, obs');
    forall d, s | HasEntry(obs', d, s)
      ensures Sourced(env, d, s, obs'.messages[d][s], obs'.hashes[d][s], obs'.tokenData[d][s])
    {
      if d == c && s in Numbers(msgs) {
        StubSourced(env, c, report.range, msgs, s, m[s], h[s]);
      } else {
        assert HasEntry(obs, d, s);
        assert SameEntry(obs, obs', d, s);
      }
    }
  }

  /** A good observation whose entries all come from what was read. */
  ghost predicate Honest(env: Environment, obs: Observation) {
    GoodObservation(env, obs) && AllSourced(env, obs) && obs.fChain == env.fChain
  }

  /** It has the report, and an entry for each of its messages. */
  ghost predicate Has(obs: Observation, report: CommitData, msgs: seq<Message>) {
    && report.source in obs.messages && report.source in obs.commitReports && report in obs.commitReports[report.source]
    && forall s :: s in Numbers(msgs) ==> s in obs.messages[report.source]
  }

  lemma StubbedIsHonest(env: Environment, obs: Observation, reports: seq<CommitData>, k: nat, msgs: seq<Message>,
                        m: map<SeqNum, Message>, h: map<SeqNum, Bytes32>, t: map<SeqNum, MessageTokenData>,
                        obs': Observation)
    requires GoodReports(reports) && k < |reports| && reports[k].source in env.supported
    requires Honest(env, obs) && ReportsFrom(obs, reports[..k])
    requires env.messages(reports[k].source, reports[k].range) == Some(msgs) && Numbers(msgs) == reports[k].range.Nums()
    requires Stubbed(env, msgs, On(obs.messages, reports[k].source), On(obs.hashes, reports[k].source),
                     On(obs.tokenData, reports[k].source), m, h, t)
    requires Replaced(obs, reports[k].source, ReportsOf(obs.commitReports, reports[k].source) + [reports[k]], m, h, t,
                      obs')
    ensures Honest(env, obs')
  {
    var report, c := reports[k], reports[k].source;
    ReportFits(env, obs, reports, k);
    ChainIsGood(env, obs, c);
    StubbedChainIsGood(env, c, ReportsOf(obs.commitReports, c), report, msgs, On(obs.messages, c), On(obs.hashes, c),
                       On(obs.tokenData, c), m, h, t);
    WithGoodChain(env, obs, c, ReportsOf(obs.commitReports, c) + [report], m, h, t, obs');
    GoodKeys(env, obs);
    StubbedSourced(env, obs, report, msgs, ReportsOf(obs.commitReports, c) + [report], m, h, t, obs');
  }

  lemma GoodKeys(env: Environment, obs: Observation)
    requires GoodObservation(env, obs)
    ensures forall c :: c in obs.messages ==> obs.messages[c].Keys == obs.hashes[c].Keys == obs.tokenData[c].Keys
  {
    forall c | c in obs.messages
      ensures obs.messages[c].Keys == obs.hashes[c].Keys == obs.tokenData[c].Keys
    {
      GoodAtFacts(env, obs, c);
    }
  }

  /** The effect of adding a report: it is there with stubs, and nothing else changes. */
  ghost predicate Added(obs: Observation, report: CommitData, msgs: seq<Message>, obs': Observation) {
    && obs'.commitReports == obs.commitReports[report.source := ReportsOf(obs.commitReports, report.source) + [report]]
    && Has(obs', report, msgs)
    && OnlyTouches(obs, obs', report.source, Numbers(msgs))
    && FullEntries(obs'.messages) <= FullEntries(obs.messages)
  }

  lemma StubbedIsAdded(env: Environment, obs: Observation, report: CommitData, msgs: seq<Message>,
                       m: map<SeqNum, Message>, h: map<SeqNum, Bytes32>, t: map<SeqNum, MessageTokenData>,
                       obs': Observation)
    requires Stubbed(env, msgs, On(obs.messages, report.source), On(obs.hashes, report.source),
                     On(obs.tokenData, report.source), m, h, t)
    requires Replaced(obs, report.source, ReportsOf(obs.commitReports, report.source) + [report], m, h, t, obs')
    ensures Added(obs, report, msgs, obs')
  {
    StubsAddNoFull(obs, report.source, Numbers(msgs), msgs, m);
    StubbedTouches(obs, report.source, Numbers(msgs), ReportsOf(obs.commitReports, report.source) + [report], m, h, t,
                   obs');
  }

  lemma StubbedStands(env: Environment, obs: Observation, report: CommitData, msgs: seq<Message>,
                      m: map<SeqNum, Message>, h: map<SeqNum, Bytes32>, t: map<SeqNum, MessageTokenData>,
                      obs': Observation)
    requires Stubbed(env, msgs, On(obs.messages, report.source), On(obs.hashes, report.source),
                     On(obs.tokenData, report.source), m, h, t)
    requires Replaced(obs, report.source, ReportsOf(obs.commitReports, report.source) + [report], m, h, t, obs')
    ensures StandUpTo(env, obs', report, msgs, 0)
  {
    forall s | s in Numbers(msgs)
      ensures StandsAt(env, obs', report, msgs, 0, s)
    {
      StubStands(env, obs', report, msgs, s);
    }
  }

  lemma StubStands(env: Environment, obs: Observation, report: CommitData, msgs: seq<Message>, s: SeqNum)
    requires HasEntry(obs, report.source, s) && HashOf(env, msgs, s, obs.hashes[report.source][s])
    requires StubOf(msgs, s, obs.messages[report.source][s]) && obs.tokenData[report.source][s] == []
    ensures StandsAt(env, obs, report, msgs, 0, s)
  {
  }

  /** A report whose messages were read, with stubs for all of them; fails if a message has no hash. */
  method AddReport(env: Environment, obs: Observation, ghost reports: seq<CommitData>, ghost k: nat,
                   report: CommitData, msgs: seq<Message>)
    returns (r: Result<Observation>)
    requires GoodReports(reports) && k < |reports| && reports[k] == report
    requires Honest(env, obs) && ReportsFrom(obs, reports[..k])
    requires report.source in env.supported
    requires env.messages(report.source, report.range) == Some(msgs) && Numbers(msgs) == report.range.Nums()
    ensures r.Ok? ==> Honest(env, r.value) && Added(obs, report, msgs, r.value)
    ensures r.Ok? ==> StandUpTo(env, r.value, report, msgs, 0)
    ensures r.Err? ==> r.error.UnableToHash? && r.error.msg in msgs && env.hash(r.error.msg).None?
  {
    var c := report.source;
    var maps := AddStubEntries(env, msgs, On(obs.messages, c), On(obs.hashes, c), On(obs.tokenData, c));
    if maps.Err? {
      return Err(maps.error);
    }
    var (m, h, t) := maps.value;
    var obs' := WithChain(obs, c, ReportsOf(obs.commitReports, c) + [report], m, h, t);
    StubbedIsHonest(env, obs, reports, k, msgs, m, h, t, obs');
    StubbedIsAdded(env, obs, report, msgs, m, h, t, obs');
    StubbedStands(env, obs, report, msgs, m, h, t, obs');
    r := Ok(obs');
  }

  lemma HandledGrows(obs: Observation, obs': Observation, reports: seq<CommitData>, k: nat)
    requires k < |reports| && ReportsFrom(obs, reports[..k])
    requires obs'.commitReports ==
             obs.commitReports[reports[k].source := ReportsOf(obs.commitReports, reports[k].source) + [reports[k]]]
    ensures ReportsFrom(obs', reports[..k + 1])
  {
    assert forall x :: x in reports[..k] ==> x in reports[..k + 1];
    assert reports[..k + 1][k] == reports[k];
  }

  // ---------- replacing a stub by its message ----------

  /** The observation with another message and other token data under number s of chain c. */
  function Put(obs: Observation, c: ChainSelector, s: SeqNum, m: Message, t: MessageTokenData): Observation
    requires c in obs.messages && c in obs.tokenData
  {
    var ms: map<SeqNum, Message> := obs.messages[c][s := m];
    var ts: map<SeqNum, MessageTokenData> := obs.tokenData[c][s := t];
    obs.(messages := obs.messages[c := ms], tokenData := obs.tokenData[c := ts])
  }

  ghost predicate IsPut(obs: Observation, c: ChainSelector, s: SeqNum, m: Message, t: MessageTokenData,
                        obs': Observation) {
    c in obs.messages && c in obs.tokenData && obs' == Put(obs, c, s, m, t)
  }

  /** Putting the message in again after something else has taken its place. */
  lemma PutBack(env: Environment, obs: Observation, c: ChainSelector, m: Message, obs': Observation)
    requires Holds(env, obs, c, m) && IsPut(obs, c, m.seqNum, Stub(m), [], obs')
    ensures IsPut(obs', c, m.seqNum, m, env.tokenData(m), obs)
  {
    var again := Put(obs', c, m.seqNum, m, env.tokenData(m));
    assert again.messages[c] == obs.messages[c] && again.tokenData[c] == obs.tokenData[c];
    assert again.messages == obs.messages && again.tokenData == obs.tokenData;
  }

  lemma PutReplaces(obs: Observation, c: ChainSelector, s: SeqNum, m: Message, t: MessageTokenData,
                    ms: map<SeqNum, Message>, ts: map<SeqNum, MessageTokenData>)
    requires SameChains(obs) && c in obs.messages
    requires ms == obs.messages[c][s := m] && ts == obs.tokenData[c][s := t]
    ensures Replaced(obs, c, obs.commitReports[c], ms, obs.hashes[c], ts, Put(obs, c, s, m, t))
  {
    assert obs.commitReports[c := obs.commitReports[c]] == obs.commitReports;
    assert obs.hashes[c := obs.hashes[c]] == obs.hashes;
  }

  lemma ChainWithPut(env: Environment, c: ChainSelector, reports: seq<CommitData>, msgs: map<SeqNum, Message>,
                     hashes: map<SeqNum, Bytes32>, tokenData: map<SeqNum, MessageTokenData>, s: SeqNum, m: Message,
                     t: MessageTokenData,
                     ms: map<SeqNum, Message>, ts: map<SeqNum, MessageTokenData>)
    requires GoodChain(env, c, reports, msgs, hashes, tokenData)
    requires s in msgs && GoodEntry(env, c, reports, s, m)
    requires ms == msgs[s := m] && ts == tokenData[s := t]
    ensures GoodChain(env, c, reports, ms, hashes, ts)
  {
  }

  lemma PutIsGood(env: Environment, obs: Observation, c: ChainSelector, s: SeqNum, m: Message, t: MessageTokenData)
    requires GoodObservation(env, obs) && c in obs.messages && s in obs.messages[c]
    requires GoodEntry(env, c, obs.commitReports[c], s, m)
    ensures GoodObservation(env, Put(obs, c, s, m, t))
  {
    assert GoodAt(env, obs, c);
    var ms: map<SeqNum, Message> := obs.messages[c][s := m];
    var ts: map<SeqNum, MessageTokenData> := obs.tokenData[c][s := t];
    PutReplaces(obs, c, s, m, t, ms, ts);
    ChainWithPut(env, c, obs.commitReports[c], obs.messages[c], obs.hashes[c], obs.tokenData[c], s, m, t, ms, ts);
    WithGoodChain(env, obs, c, obs.commitReports[c], ms, obs.hashes[c], ts, Put(obs, c, s, m, t));
  }

  lemma PutTouches(obs: Observation, c: ChainSelector, s: SeqNum, m: Message, t: MessageTokenData)
    requires c in obs.messages && c in obs.tokenData
    ensures OnlyTouches(obs, Put(obs, c, s, m, t), c, {s})
  {
  }

  lemma PutSourced(env: Environment, obs: Observation, c: ChainSelector, s: SeqNum, m: Message, t: MessageTokenData,
                   x: Message)
    requires AllSourced(env, obs) && HasEntry(obs, c, s)
    requires Read(env, c, x) && (m == x || m == Stub(x)) && (t == env.tokenData(m) || (t == [] && !IsFull(m)))
    ensures AllSourced(env, Put(obs, c, s, m, t))
  {
    var obs' := Put(obs, c, s, m, t);
    forall d, u | HasEntry(obs', d, u)
      ensures Sourced(env, d, u, obs'.messages[d][u], obs'.hashes[d][u], obs'.tokenData[d][u])
    {
      assert HasEntry(obs, d, u);
      assert Sourced(env, d, u, obs.messages[d][u], obs.hashes[d][u], obs.tokenData[d][u]);
    }
  }

  lemma GoodHasEntry(env: Environment, obs: Observation, c: ChainSelector, s: SeqNum)
    requires GoodObservation(env, obs) && c in obs.messages && s in obs.messages[c]
    ensures HasEntry(obs, c, s)
  {
    GoodAtFacts(env, obs, c);
  }

  lemma PutFull(obs: Observation, c: ChainSelector, s: SeqNum, m: Message, t: MessageTokenData)
    requires c in obs.messages && c in obs.tokenData
    ensures FullEntries(Put(obs, c, s, m, t).messages) - {(c, s)} == FullEntries(obs.messages) - {(c, s)}
    ensures (c, s) in FullEntries(Put(obs, c, s, m, t).messages) <==> IsFull(m)
  {
  }

  /** The read message may replace its stub: it is neither in flight nor executed. */
  ghost predicate Eligible(env: Environment, report: CommitData, msg: Message) {
    (report.source, msg.id) !in env.inflight && msg.seqNum !in report.executed
  }

  /** A number of a report that is not executed in it is executed in no report of its chain. */
  lemma EligibleIsGood(env: Environment, obs: Observation, report: CommitData, m: Message)
    requires GoodObservation(env, obs)
    requires report.source in obs.messages && report in obs.commitReports[report.source]
    requires report.range.Contains(m.seqNum) && Eligible(env, report, m)
    ensures GoodEntry(env, report.source, obs.commitReports[report.source], m.seqNum, m)
  {
    var c := report.source;
    GoodAtFacts(env, obs, c);
    var reports := obs.commitReports[c];
    var k :| 0 <= k < |reports| && reports[k] == report;
    forall i | 0 <= i < |reports|
      ensures m.seqNum !in reports[i].executed
    {
      NotExecutedElsewhere(reports, k, i, m.seqNum);
    }
  }

  lemma NotExecutedElsewhere(reports: seq<CommitData>, k: nat, i: nat, s: SeqNum)
    requires DisjointReports(reports) && k < |reports| && i < |reports|
    requires reports[k].range.Contains(s) && s !in reports[k].executed
    ensures s !in reports[i].executed
  {
    assert ExecutedInRange(reports[i]);
    if i < k {
      assert !reports[i].range.Overlaps(reports[k].range);
    } else if k < i {
      assert !reports[k].range.Overlaps(reports[i].range);
    }
  }

  /** The messages that were read for a report, one at least for each of its numbers. */
  ghost predicate ReadFor(env: Environment, report: CommitData, msgs: seq<Message>) {
    env.messages(report.source, report.range) == Some(msgs) && Numbers(msgs) == report.range.Nums()
  }

  /** Putting message i of a report, or its stub, into an honest observation. */
  lemma PutHonest(env: Environment, obs: Observation, report: CommitData, msgs: seq<Message>, i: nat, m: Message,
                  t: MessageTokenData)
    requires Honest(env, obs) && Has(obs, report, msgs) && i < |msgs| && ReadFor(env, report, msgs)
    requires m == msgs[i] || m == Stub(msgs[i])
    requires t == env.tokenData(m) || (t == [] && !IsFull(m))
    requires GoodEntry(env, report.source, obs.commitReports[report.source], m.seqNum, m)
    ensures report.source in obs.tokenData
    ensures Honest(env, Put(obs, report.source, m.seqNum, m, t))
    ensures Has(Put(obs, report.source, m.seqNum, m, t), report, msgs)
  {
    var c := report.source;
    assert msgs[i].seqNum in Numbers(msgs);
    GoodHasEntry(env, obs, c, m.seqNum);
    assert Read(env, c, msgs[i]);
    PutIsGood(env, obs, c, m.seqNum, m, t);
    PutSourced(env, obs, c, m.seqNum, m, t, msgs[i]);
  }

  /** The message stands under its number, with its token data. */
  ghost predicate Holds(env: Environment, obs: Observation, c: ChainSelector, m: Message) {
    && HasEntry(obs, c, m.seqNum)
    && obs.messages[c][m.seqNum] == m && obs.tokenData[c][m.seqNum] == env.tokenData(m)
  }

  /** Of the first n messages, k is the last one with number s that is eligible. */
  ghost predicate LastEligible(env: Environment, report: CommitData, msgs: seq<Message>, n: nat, s: SeqNum, k: int)
    requires n <= |msgs|
  {
    && 0 <= k < n && msgs[k].seqNum == s && Eligible(env, report, msgs[k])
    && forall i :: k < i < n && msgs[i].seqNum == s ==> !Eligible(env, report, msgs[i])
  }

  ghost predicate NoneEligible(env: Environment, report: CommitData, msgs: seq<Message>, n: nat, s: SeqNum)
    requires n <= |msgs|
  {
    forall i :: 0 <= i < n && msgs[i].seqNum == s ==> !Eligible(env, report, msgs[i])
  }

  /** What stands under number s once the first n messages are handled: the last eligible one of them
      with its token data, or else a stub without any; and in any case the hash. */
  ghost predicate StandsAt(env: Environment, obs: Observation, report: CommitData, msgs: seq<Message>, n: nat,
                           s: SeqNum)
    requires n <= |msgs|
  {
    && HasEntry(obs, report.source, s) && HashOf(env, msgs, s, obs.hashes[report.source][s])
    && (NoneEligible(env, report, msgs, n, s) ==> StubAt(obs, report, msgs, s))
    && forall k :: LastEligible(env, report, msgs, n, s, k) ==> Holds(env, obs, report.source, msgs[k])
  }

  ghost predicate StubAt(obs: Observation, report: CommitData, msgs: seq<Message>, s: SeqNum)
    requires HasEntry(obs, report.source, s)
  {
    StubOf(msgs, s, obs.messages[report.source][s]) && obs.tokenData[report.source][s] == []
  }

  ghost predicate StandUpTo(env: Environment, obs: Observation, report: CommitData, msgs: seq<Message>, n: nat)
    requires n <= |msgs|
  {
    forall s :: s in Numbers(msgs) ==> StandsAt(env, obs, report, msgs, n, s)
  }

  lemma EntryStands(env: Environment, obs: Observation, obs': Observation, report: CommitData, msgs: seq<Message>,
                    n: nat, s: SeqNum)
    requires n <= |msgs| && StandsAt(env, obs, report, msgs, n, s) && SameEntry(obs, obs', report.source, s)
    ensures StandsAt(env, obs', report, msgs, n, s)
  {
  }

  lemma StandStays(env: Environment, obs: Observation, obs': Observation, report: CommitData, msgs: seq<Message>,
                   n: nat, c: ChainSelector, nums: set<SeqNum>)
    requires n <= |msgs| && StandUpTo(env, obs, report, msgs, n) && OnlyTouches(obs, obs', c, nums)
    requires report.source == c ==> Numbers(msgs) !! nums
    ensures StandUpTo(env, obs', report, msgs, n)
  {
    forall s | s in Numbers(msgs)
      ensures StandsAt(env, obs', report, msgs, n, s)
    {
      assert StandsAt(env, obs, report, msgs, n, s);
      assert SameEntry(obs, obs', report.source, s);
      EntryStands(env, obs, obs', report, msgs, n, s);
    }
  }

  /** One more message that changes nothing under s: another number, or not eligible. */
  lemma StandsFurther(env: Environment, obs: Observation, report: CommitData, msgs: seq<Message>, n: nat, s: SeqNum)
    requires n < |msgs| && StandsAt(env, obs, report, msgs, n, s)
    requires msgs[n].seqNum != s || !Eligible(env, report, msgs[n])
    ensures StandsAt(env, obs, report, msgs, n + 1, s)
  {
    EligibleFurther(env, report, msgs, n, s);
  }

  lemma EligibleFurther(env: Environment, report: CommitData, msgs: seq<Message>, n: nat, s: SeqNum)
    requires n < |msgs| && (msgs[n].seqNum != s || !Eligible(env, report, msgs[n]))
    ensures forall k :: LastEligible(env, report, msgs, n + 1, s, k) ==> LastEligible(env, report, msgs, n, s, k)
    ensures NoneEligible(env, report, msgs, n + 1, s) <==> NoneEligible(env, report, msgs, n, s)
  {
  }

  lemma StandSkips(env: Environment, obs: Observation, report: CommitData, msgs: seq<Message>, n: nat)
    requires n < |msgs| && StandUpTo(env, obs, report, msgs, n) && !Eligible(env, report, msgs[n])
    ensures StandUpTo(env, obs, report, msgs, n + 1)
  {
    forall s | s in Numbers(msgs)
      ensures StandsAt(env, obs, report, msgs, n + 1, s)
    {
      StandsFurther(env, obs, report, msgs, n, s);
    }
  }

  lemma HeldStands(env: Environment, obs: Observation, report: CommitData, msgs: seq<Message>, n: nat)
    requires n < |msgs| && Eligible(env, report, msgs[n]) && Holds(env, obs, report.source, msgs[n])
    requires HashOf(env, msgs, msgs[n].seqNum, obs.hashes[report.source][msgs[n].seqNum])
    ensures StandsAt(env, obs, report, msgs, n + 1, msgs[n].seqNum)
  {
  }

  lemma StandGrows(env: Environment, obs: Observation, obs': Observation, report: CommitData, msgs: seq<Message>,
                   n: nat)
    requires n < |msgs| && StandUpTo(env, obs, report, msgs, n) && Eligible(env, report, msgs[n])
    requires Holds(env, obs', report.source, msgs[n]) && obs'.hashes == obs.hashes
    requires OnlyTouches(obs, obs', report.source, {msgs[n].seqNum})
    ensures StandUpTo(env, obs', report, msgs, n + 1)
  {
    forall s | s in Numbers(msgs)
      ensures StandsAt(env, obs', report, msgs, n + 1, s)
    {
      assert StandsAt(env, obs, report, msgs, n, s);
      if s != msgs[n].seqNum {
        assert SameEntry(obs, obs', report.source, s);
        EntryStands(env, obs, obs', report, msgs, n, s);
        StandsFurther(env, obs', report, msgs, n, s);
      } else {
        HeldStands(env, obs', report, msgs, n);
      }
    }
  }

  /** The effect of putting a message of the report under its number. */
  ghost predicate PutIn(env: Environment, obs: Observation, report: CommitData, msgs: seq<Message>, s: SeqNum,
                        obs': Observation) {
    && Honest(env, obs') && Has(obs', report, msgs) && obs'.commitReports == obs.commitReports
    && obs'.hashes == obs.hashes && OnlyTouches(obs, obs', report.source, {s})
  }

  method PutMessage(env: Environment, obs: Observation, report: CommitData, msgs: seq<Message>, i: nat)
    returns (obs': Observation)
    requires Honest(env, obs) && Has(obs, report, msgs) && i < |msgs| && ReadFor(env, report, msgs)
    requires Eligible(env, report, msgs[i])
    ensures PutIn(env, obs, report, msgs, msgs[i].seqNum, obs')
    ensures Holds(env, obs', report.source, msgs[i])
    ensures FullEntries(obs'.messages) - {(report.source, msgs[i].seqNum)} <= FullEntries(obs.messages)
  {
    var c, msg := report.source, msgs[i];
    assert msg.seqNum in Numbers(msgs);
    EligibleIsGood(env, obs, report, msg);
    PutHonest(env, obs, report, msgs, i, msg, env.tokenData(msg));
    PutTouches(obs, c, msg.seqNum, msg, env.tokenData(msg));
    PutFull(obs, c, msg.seqNum, msg, env.tokenData(msg));
    obs' := Put(obs, c, msg.seqNum, msg, env.tokenData(msg));
    GoodHasEntry(env, obs', c, msg.seqNum);
  }

  method TakeOut(env: Environment, obs: Observation, report: CommitData, msgs: seq<Message>, i: nat)
    returns (obs': Observation)
    requires Honest(env, obs) && Has(obs, report, msgs) && i < |msgs| && ReadFor(env, report, msgs)
    ensures PutIn(env, obs, report, msgs, msgs[i].seqNum, obs')
    ensures FullEntries(obs'.messages) <= FullEntries(obs.messages) - {(report.source, msgs[i].seqNum)}
    ensures obs'.messages[report.source][msgs[i].seqNum] == Stub(msgs[i])
    ensures report.source in obs'.tokenData && msgs[i].seqNum in obs'.tokenData[report.source]
    ensures IsPut(obs, report.source, msgs[i].seqNum, Stub(msgs[i]), [], obs')
    ensures obs'.tokenData[report.source][msgs[i].seqNum] == []
  {
    var c, s := report.source, msgs[i].seqNum;
    PutHonest(env, obs, report, msgs, i, Stub(msgs[i]), []);
    PutTouches(obs, c, s, Stub(msgs[i]), []);
    PutFull(obs, c, s, Stub(msgs[i]), []);
    obs' := Put(obs, c, s, Stub(msgs[i]), []);
  }
}
