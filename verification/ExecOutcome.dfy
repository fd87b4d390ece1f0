/** The outcome of the messages phase: each commit report with its messages, their hashes and their
    token data. */
module ExecOutcome {
  import opened CcipTypes
  import opened Sorting
  import opened ExecTypes
  import opened ExecValidation
  import opened ExecMessageConsensus
  import ExecCommitConsensus

  /** The numbers from lo up to but not including hi under which a message is known, in order. */
  function Known(msgs: map<SeqNum, Message>, lo: SeqNum, hi: int): (nums: seq<SeqNum>)
    requires lo <= hi <= UINT64_MODULUS
    ensures forall k :: 0 <= k < |nums| ==> lo <= nums[k] < hi && nums[k] in msgs
    decreases hi - lo
  {
    if hi == lo then []
    else
      var last: SeqNum := hi - 1;
      Known(msgs, lo, last) + if last in msgs then [last] else []
  }

  lemma {:induction false} KnownExact(msgs: map<SeqNum, Message>, lo: SeqNum, hi: int)
    requires lo <= hi <= UINT64_MODULUS
    ensures StrictlyIncreasing(Known(msgs, lo, hi))
    ensures forall s: SeqNum :: s in Known(msgs, lo, hi) <==> lo <= s < hi && s in msgs
    decreases hi - lo
  {
    if hi > lo {
      KnownExact(msgs, lo, hi - 1);
    }
  }

  /** The numbers of the report with a message. */
  function NumbersOf(obs: Observation, report: CommitData): seq<SeqNum>
    requires report.range.start <= report.range.end
  {
    Known(On(obs.messages, report.source), report.range.start, report.range.end + 1)
  }

  /** The values under the given numbers, in order. */
  function Gather<V>(m: map<SeqNum, V>, nums: seq<SeqNum>): seq<V>
    requires forall k :: 0 <= k < |nums| ==> nums[k] in m
  {
    seq(|nums|, k requires 0 <= k < |nums| => m[nums[k]])
  }

  lemma GatherAppend<V>(m: map<SeqNum, V>, nums: seq<SeqNum>, s: SeqNum)
    requires s in m && forall k :: 0 <= k < |nums| ==> nums[k] in m
    ensures Gather(m, nums + [s]) == Gather(m, nums) + [m[s]]
  {
  }

  /** Hashes and token data exist for the same messages. */
  ghost predicate Complete(obs: Observation) {
    HashesMatch(obs.messages, obs.hashes) && TokenDataMatches(obs.messages, obs.tokenData)
  }

  lemma KnownEverywhere(obs: Observation, report: CommitData)
    requires Complete(obs) && report.range.start <= report.range.end
    ensures forall k :: 0 <= k < |NumbersOf(obs, report)| ==>
              && NumbersOf(obs, report)[k] in On(obs.messages, report.source)
              && NumbersOf(obs, report)[k] in On(obs.hashes, report.source)
              && NumbersOf(obs, report)[k] in On(obs.tokenData, report.source)
  {
  }

  /** The report with messages in place of its own, and hashes and token data behind its own. */
  ghost predicate IsFilled(obs: Observation, report: CommitData, filled: CommitData)
    requires Complete(obs) && report.range.start <= report.range.end
  {
    KnownEverywhere(obs, report);
    var nums := NumbersOf(obs, report);
    && filled.messages == Gather(On(obs.messages, report.source), nums)
    && filled.hashes == report.hashes + Gather(On(obs.hashes, report.source), nums)
    && filled.tokenData == report.tokenData + Gather(On(obs.tokenData, report.source), nums)
    && filled == report.(messages := filled.messages, hashes := filled.hashes, tokenData := filled.tokenData)
  }

  lemma KnownAt(obs: Observation, c: ChainSelector, s: SeqNum)
    requires Complete(obs) && s in On(obs.messages, c)
    ensures s in On(obs.hashes, c) && s in On(obs.tokenData, c)
  {
  }

  /** The report after the numbers nums. */
  ghost predicate FilledWith(obs: Observation, report0: CommitData, nums: seq<SeqNum>, report: CommitData) {
    var c := report0.source;
    && (forall k :: 0 <= k < |nums| ==>
           nums[k] in On(obs.messages, c) && nums[k] in On(obs.hashes, c) && nums[k] in On(obs.tokenData, c))
    && report.messages == Gather(On(obs.messages, c), nums)
    && report.hashes == report0.hashes + Gather(On(obs.hashes, c), nums)
    && report.tokenData == report0.tokenData + Gather(On(obs.tokenData, c), nums)
    && report == report0.(messages := report.messages, hashes := report.hashes, tokenData := report.tokenData)
  }

  lemma FillOne(obs: Observation, report0: CommitData, nums: seq<SeqNum>, report: CommitData, s: SeqNum,
                next: CommitData)
    requires FilledWith(obs, report0, nums, report)
    requires s in On(obs.messages, report0.source) && s in On(obs.hashes, report0.source)
    requires s in On(obs.tokenData, report0.source)
    requires next == report.(messages := report.messages + [On(obs.messages, report0.source)[s]],
                             hashes := report.hashes + [On(obs.hashes, report0.source)[s]],
                             tokenData := report.tokenData + [On(obs.tokenData, report0.source)[s]])
    ensures FilledWith(obs, report0, nums + [s], next)
  {
    var c := report0.source;
    GatherAppend(On(obs.messages, c), nums, s);
    GatherAppend(On(obs.hashes, c), nums, s);
    GatherAppend(On(obs.tokenData, c), nums, s);
  }

  method FillReport(obs: Observation, report0: CommitData) returns (report: CommitData)
    requires Complete(obs) && report0.range.start <= report0.range.end < MAX_SEQ_NUM
    ensures IsFilled(obs, report0, report)
  {
    var c := report0.source;
    report := report0.(messages := []);
    ghost var nums: seq<SeqNum> := [];
    var j: int := report.range.start;
    while j <= report0.range.end
      invariant report0.range.start <= j <= report0.range.end + 1
      invariant nums == Known(On(obs.messages, c), report0.range.start, j)
      invariant FilledWith(obs, report0, nums, report)
    {
      var s: SeqNum := j;
      if c in obs.messages && s in obs.messages[c] {
        KnownAt(obs, c, s);
        var next := report.(messages := report.messages + [obs.messages[c][s]],
                            hashes := report.hashes + [obs.hashes[c][s]],
                            tokenData := report.tokenData + [obs.tokenData[c][s]]);
        FillOne(obs, report0, nums, report, s, next);
        report, nums := next, nums + [s];
      }
      j := j + 1;
    }
    WhenFilled(obs, report0, nums, report);
  }

  lemma WhenFilled(obs: Observation, report0: CommitData, nums: seq<SeqNum>, report: CommitData)
    requires Complete(obs) && report0.range.start <= report0.range.end
    requires FilledWith(obs, report0, nums, report) && nums == NumbersOf(obs, report0)
    ensures IsFilled(obs, report0, report)
  {
  }

  /** slice without its i-th element, or the slice itself if there is none. */
  function RemoveIthElement<T>(slice: seq<T>, i: int): seq<T> {
    if i < 0 || i >= |slice| then slice else slice[..i] + slice[i + 1..]
  }

  /** The reports of all chains with their multiplicities. */
  ghost function Bag(reports: CommitObservations): multiset<CommitData> {
    if reports == map[] then multiset{}
    else
      var c := Least(reports.Keys);
      multiset(reports[c]) + Bag(reports - {c})
  }

  /** Any chain may be added last. */
  lemma {:induction false} BagRemove(reports: CommitObservations, c: ChainSelector)
    requires c in reports
    ensures Bag(reports) == multiset(reports[c]) + Bag(reports - {c})
    decreases |reports|
  {
    assert reports.Keys != {};
    var l := Least(reports.Keys);
    if c != l {
      BagRemove(reports - {l}, c);
      assert l in (reports - {c}).Keys;
      assert Least((reports - {c}).Keys) == l;
      assert reports - {l} - {c} == reports - {c} - {l};
    }
  }

  lemma BagStep(reports: CommitObservations, rest: set<ChainSelector>, c: ChainSelector)
    requires c in rest && c in reports
    ensures Bag(reports - (rest - {c})) == multiset(reports[c]) + Bag(reports - rest)
  {
    BagRemove(reports - (rest - {c}), c);
    assert reports - (rest - {c}) - {c} == reports - rest;
  }

  lemma {:induction false} BagMembers(reports: CommitObservations, x: CommitData)
    requires x in Bag(reports)
    ensures exists c :: c in reports && x in reports[c]
    decreases |reports|
  {
    var c := Least(reports.Keys);
    if x !in reports[c] {
      BagMembers(reports - {c}, x);
      var d :| d in reports - {c} && x in (reports - {c})[d];
      assert d in reports && x in reports[d];
    }
  }

  /** The reports of all chains, none lost and none added, in no particular order of the chains. */
  ghost predicate IsFlat(reports: CommitObservations, flat: seq<CommitData>) {
    multiset(flat) == Bag(reports)
  }

  lemma FlatMember(reports: CommitObservations, flat: seq<CommitData>, i: nat)
    requires IsFlat(reports, flat) && i < |flat|
    ensures exists c :: c in reports && flat[i] in reports[c]
  {
    assert flat[i] in multiset(flat);
    BagMembers(reports, flat[i]);
  }

  method Flatten(reports: CommitObservations) returns (flat: seq<CommitData>)
    ensures IsFlat(reports, flat)
  {
    flat := [];
    var rest := reports.Keys;
    assert reports - rest == map[];
    while rest != {}
      invariant rest <= reports.Keys
      invariant multiset(flat) == Bag(reports - rest)
    {
      var c :| c in rest;
      BagStep(reports, rest, c);
      rest := rest - {c};
      flat := flat + reports[c];
    }
    assert reports - rest == reports;
  }

  /** One output report for every input report, in order, each filled. */
  ghost predicate AllFilled(obs: Observation, flat: seq<CommitData>, out: seq<CommitData>)
    requires Complete(obs) && forall i :: 0 <= i < |flat| ==> flat[i].range.start <= flat[i].range.end
  {
    |out| == |flat| && forall i :: 0 <= i < |out| ==> IsFilled(obs, flat[i], out[i])
  }

  ghost predicate Countable(obs: Observation) {
    forall c, i :: c in obs.commitReports && 0 <= i < |obs.commitReports[c]| ==>
      obs.commitReports[c][i].range.start <= obs.commitReports[c][i].range.end < MAX_SEQ_NUM
  }

  lemma FlatCountable(obs: Observation, flat: seq<CommitData>)
    requires Countable(obs) && IsFlat(obs.commitReports, flat)
    ensures forall i :: 0 <= i < |flat| ==> flat[i].range.start <= flat[i].range.end < MAX_SEQ_NUM
  {
    forall i | 0 <= i < |flat|
      ensures flat[i].range.start <= flat[i].range.end < MAX_SEQ_NUM
    {
      FlatMember(obs.commitReports, flat, i);
      var c :| c in obs.commitReports && flat[i] in obs.commitReports[c];
    }
  }

  /** The loop over the reports. A report without messages makes the code remove the i-th element of
      an accumulator that has just i of them: nothing is removed, and the report stays in. */
  method FillReports(obs: Observation, flat: seq<CommitData>) returns (out: seq<CommitData>)
    requires Complete(obs) && forall i :: 0 <= i < |flat| ==> flat[i].range.start <= flat[i].range.end < MAX_SEQ_NUM
    ensures AllFilled(obs, flat, out)
  {
    out := [];
    for i := 0 to |flat|
      invariant |out| == i && forall k :: 0 <= k < i ==> IsFilled(obs, flat[k], out[k])
    {
      var report := FillReport(obs, flat[i]);
      if |report.messages| == 0 {
        out := RemoveIthElement(out, i);
      }
      out := out + [report];
    }
  }

  /** None if hashes or token data do not go with the messages, the filled reports otherwise. */
  method GetMessagesOutcome(obs: Observation) returns (out: Option<seq<CommitData>>, ghost flat: seq<CommitData>)
    requires Countable(obs)
    ensures IsFlat(obs.commitReports, flat)
    ensures out.None? <==> !Complete(obs)
    ensures out.Some? ==>
              (forall i :: 0 <= i < |flat| ==> flat[i].range.start <= flat[i].range.end)
                && AllFilled(obs, flat, out.value)
  {
    var reports := Flatten(obs.commitReports);
    flat := reports;
    FlatCountable(obs, flat);
    var hashes := ValidateHashesExist(obs.messages, obs.hashes);
    if !hashes {
      return None, flat;
    }
    var tokenData := ValidateTokenDataObservations(obs.messages, obs.tokenData);
    if !tokenData {
      return None, flat;
    }
    var filled := FillReports(obs, reports);
    return Some(filled), flat;
  }

  // ---------- alignment ----------

  /** Messages, hashes and token data at every place are those of one and the same number; the numbers
      are in range and strictly ascending. */
  ghost predicate Aligned(obs: Observation, d: CommitData, nums: seq<SeqNum>) {
    && |d.messages| == |d.hashes| == |d.tokenData| == |nums|
    && StrictlyIncreasing(nums)
    && forall k :: 0 <= k < |nums| ==>
         && d.range.Contains(nums[k])
         && nums[k] in On(obs.messages, d.source) && d.messages[k] == On(obs.messages, d.source)[nums[k]]
         && nums[k] in On(obs.hashes, d.source) && d.hashes[k] == On(obs.hashes, d.source)[nums[k]]
         && nums[k] in On(obs.tokenData, d.source) && d.tokenData[k] == On(obs.tokenData, d.source)[nums[k]]
  }

  /** A filled report is aligned exactly if it came in without hashes and token data, which the code
      does not reset as it resets the messages. */
  lemma FilledIsAligned(obs: Observation, report: CommitData, filled: CommitData)
    requires Complete(obs) && report.range.start <= report.range.end && IsFilled(obs, report, filled)
    ensures (exists nums :: Aligned(obs, filled, nums)) <==> report.hashes == [] && report.tokenData == []
    ensures report.hashes == [] && report.tokenData == [] ==> Aligned(obs, filled, NumbersOf(obs, report))
    ensures forall s: SeqNum :: s in NumbersOf(obs, report) <==>
            report.range.Contains(s) && s in On(obs.messages, report.source)
  {
    KnownExact(On(obs.messages, report.source), report.range.start, report.range.end + 1);
    KnownEverywhere(obs, report);
    if report.hashes == [] && report.tokenData == [] {
      assert Aligned(obs, filled, NumbersOf(obs, report));
    }
  }

  /** The agreed observation as the phase makes it: reports from the consensus on roots, messages from
      the consensus on messages. */
  ghost predicate FromConsensus(aos: seq<AttributedObservation>, fChain: map<ChainSelector, nat>, obs: Observation) {
    && ExecCommitConsensus.IsCommitConsensus(aos, fChain, obs.commitReports)
    && IsMessageConsensus(aos, fChain, obs.messages)
  }

  lemma AgreedNumbers(aos: seq<AttributedObservation>, fChain: map<ChainSelector, nat>, obs: Observation,
                      c: ChainSelector, s: SeqNum)
    requires FromConsensus(aos, fChain, obs) && s in On(obs.messages, c)
    ensures On(obs.messages, c)[s].seqNum == s
  {
    ChosenExactly(aos, fChain[c], c, s, obs.messages[c][s]);
  }

  lemma AgreedReportsAreBare(aos: seq<AttributedObservation>, fChain: map<ChainSelector, nat>, obs: Observation,
                             flat: seq<CommitData>, i: nat)
    requires FromConsensus(aos, fChain, obs) && IsFlat(obs.commitReports, flat) && i < |flat|
    ensures flat[i].hashes == [] && flat[i].tokenData == []
  {
    FlatMember(obs.commitReports, flat, i);
    var c :| c in obs.commitReports && flat[i] in obs.commitReports[c];
    var j :| 0 <= j < |obs.commitReports[c]| && obs.commitReports[c][j] == flat[i];
    assert ExecCommitConsensus.IsEntry(aos, fChain, c, obs.commitReports[c][j]);
  }

  /** After the consensus, every report of the outcome is aligned, and the numbers in the headers of
      its messages are in range and strictly ascending. */
  lemma OutcomeIsAligned(aos: seq<AttributedObservation>, fChain: map<ChainSelector, nat>, obs: Observation,
                         flat: seq<CommitData>, out: seq<CommitData>, i: nat)
    requires FromConsensus(aos, fChain, obs) && Complete(obs) && IsFlat(obs.commitReports, flat)
    requires forall i :: 0 <= i < |flat| ==> flat[i].range.start <= flat[i].range.end
    requires AllFilled(obs, flat, out) && i < |out|
    ensures Aligned(obs, out[i], NumbersOf(obs, flat[i]))
    ensures forall k :: 0 <= k < |out[i].messages| ==> out[i].range.Contains(out[i].messages[k].seqNum)
    ensures forall j, k :: 0 <= j < k < |out[i].messages| ==> out[i].messages[j].seqNum < out[i].messages[k].seqNum
  {
    var nums := NumbersOf(obs, flat[i]);
    AgreedReportsAreBare(aos, fChain, obs, flat, i);
    FilledIsAligned(obs, flat[i], out[i]);
    forall k | 0 <= k < |nums|
      ensures out[i].messages[k].seqNum == nums[k]
    {
      AgreedNumbers(aos, fChain, obs, flat[i].source, nums[k]);
    }
  }
}
