/** The observation of the messages phase as a whole: the loop over the reports and over the messages
    of each, and what holds of the observation wherever the loops stop. */
module ExecMessages {
  import opened CcipTypes
  import opened Sorting
  import opened ExecTypes
  import opened ExecValidation
  import opened ExecObservation
  import opened ExecFilling

  /** How many of the first n messages are eligible. */
  ghost function EligibleCount(env: Environment, report: CommitData, msgs: seq<Message>, n: nat): nat
    requires n <= |msgs|
  {
    if n == 0 then 0
    else EligibleCount(env, report, msgs, n - 1) + if Eligible(env, report, msgs[n - 1]) then 1 else 0
  }

  /** What filling in messages of a report may change. */
  ghost predicate Filled(env: Environment, obs0: Observation, obs: Observation, report: CommitData,
                         msgs: seq<Message>) {
    && Honest(env, obs) && Has(obs, report, msgs) && obs.commitReports == obs0.commitReports
    && OnlyTouches(obs0, obs, report.source, Numbers(msgs))
  }

  /** With one more message, the j-th of the report, the encoding is too long. */
  ghost predicate Overflows(env: Environment, obs: Observation, report: CommitData, msgs: seq<Message>, j: nat)
    requires j < |msgs|
  {
    && report.source in obs.messages && report.source in obs.tokenData
    && TooLong(env, Put(obs, report.source, msgs[j].seqNum, msgs[j], env.tokenData(msgs[j])))
  }

  ghost predicate TooLong(env: Environment, obs: Observation) {
    env.encodedSize(obs).Some? && env.encodedSize(obs).value > env.maxSize
  }

  datatype Filling =
    | Failed(error: Failure)
    | More(obs: Observation, total: nat)
    | Full(obs: Observation, last: nat)

  /** Why filling stops at the j-th message: there are enough already, or one more is too long. */
  ghost predicate StopsAt(env: Environment, obs: Observation, report: CommitData, msgs: seq<Message>, j: nat,
                          total: nat) {
    j < |msgs| && Eligible(env, report, msgs[j])
    && (total == LENIENT_MAX_MSGS_PER_OBS || Overflows(env, obs, report, msgs, j))
  }

  lemma TouchesCompose(obs0: Observation, obs: Observation, obs': Observation, c: ChainSelector, nums: set<SeqNum>,
                       more: set<SeqNum>)
    requires OnlyTouches(obs0, obs, c, nums) && OnlyTouches(obs, obs', c, more) && more <= nums
    ensures OnlyTouches(obs0, obs', c, nums)
  {
    forall d, s | HasEntry(obs0, d, s) && !(d == c && s in nums)
      ensures SameEntry(obs0, obs', d, s)
    {
      assert SameEntry(obs0, obs, d, s);
      assert SameEntry(obs, obs', d, s);
    }
  }

  lemma FilledFurther(env: Environment, obs0: Observation, obs: Observation, obs': Observation, report: CommitData,
                      msgs: seq<Message>, i: nat)
    requires i < |msgs| && Filled(env, obs0, obs, report, msgs) && PutIn(env, obs, report, msgs, msgs[i].seqNum, obs')
    ensures Filled(env, obs0, obs', report, msgs)
  {
    assert msgs[i].seqNum in Numbers(msgs);
    TouchesCompose(obs0, obs, obs', report.source, Numbers(msgs), {msgs[i].seqNum});
  }

  lemma OneMore(a: set<(ChainSelector, SeqNum)>, b: set<(ChainSelector, SeqNum)>, p: (ChainSelector, SeqNum))
    requires b - {p} <= a
    ensures |b - {p}| <= |a| && |b| <= |a| + 1
  {
    SubsetSize(b - {p}, a);
    SubsetSize(b, (b - {p}) + {p});
  }

  lemma Reverted(env: Environment, obs0: Observation, over: Observation, obs: Observation, report: CommitData,
                 msgs: seq<Message>, i: nat)
    requires i < |msgs| && Filled(env, obs0, over, report, msgs) && PutIn(env, over, report, msgs, msgs[i].seqNum, obs)
    requires Holds(env, over, report.source, msgs[i])
    requires IsPut(over, report.source, msgs[i].seqNum, Stub(msgs[i]), [], obs)
    ensures Filled(env, obs0, obs, report, msgs)
    ensures TooLong(env, over) ==> Overflows(env, obs, report, msgs, i)
  {
    FilledFurther(env, obs0, over, obs, report, msgs, i);
    PutBack(env, over, report.source, msgs[i], obs);
  }

  /** The first n messages are handled: every number has what they give, and total counts the eligible ones. */
  ghost predicate FilledUpTo(env: Environment, obs0: Observation, report: CommitData, msgs: seq<Message>, n: nat,
                             total0: nat,
                             obs: Observation, total: nat)
    requires n <= |msgs|
  {
    && Filled(env, obs0, obs, report, msgs) && StandUpTo(env, obs, report, msgs, n)
    && |FullEntries(obs.messages)| <= total == total0 + EligibleCount(env, report, msgs, n) <= LENIENT_MAX_MSGS_PER_OBS
  }

  /** A stub stands under the number of message m. */
  ghost predicate StubOnly(obs: Observation, report: CommitData, m: Message) {
    && HasEntry(obs, report.source, m.seqNum) && obs.messages[report.source][m.seqNum] == Stub(m)
    && obs.tokenData[report.source][m.seqNum] == []
  }

  /** The first j messages are handled, and a stub stands under the number of the next. */
  ghost predicate CutBefore(env: Environment, obs: Observation, report: CommitData, msgs: seq<Message>, j: nat)
    requires j < |msgs|
  {
    && (forall s :: s in Numbers(msgs) && s != msgs[j].seqNum ==> StandsAt(env, obs, report, msgs, j, s))
    && StubOnly(obs, report, msgs[j])
    && HashOf(env, msgs, msgs[j].seqNum, obs.hashes[report.source][msgs[j].seqNum])
  }

  /** Message j broke a limit and was taken out again. */
  ghost predicate FilledAndStopped(env: Environment, obs0: Observation, report: CommitData, msgs: seq<Message>,
                                   total0: nat,
                                   obs: Observation, j: nat) {
    && Filled(env, obs0, obs, report, msgs) && |FullEntries(obs.messages)| <= LENIENT_MAX_MSGS_PER_OBS
    && j < |msgs| && CutBefore(env, obs, report, msgs, j)
    && StopsAt(env, obs, report, msgs, j, total0 + EligibleCount(env, report, msgs, j))
  }

  lemma NotEligible(env: Environment, obs0: Observation, report: CommitData, msgs: seq<Message>, n: nat, total0: nat,
                    obs: Observation, total: nat)
    requires n < |msgs| && FilledUpTo(env, obs0, report, msgs, n, total0, obs, total) && !Eligible(env, report, msgs[n])
    ensures FilledUpTo(env, obs0, report, msgs, n + 1, total0, obs, total)
  {
    StandSkips(env, obs, report, msgs, n);
  }

  /** filled is obs with message n of the report put in. */
  ghost predicate OneMoreIn(env: Environment, obs: Observation, report: CommitData, msgs: seq<Message>, n: nat,
                            filled: Observation)
    requires n < |msgs|
  {
    && PutIn(env, obs, report, msgs, msgs[n].seqNum, filled) && Holds(env, filled, report.source, msgs[n])
    && FullEntries(filled.messages) - {(report.source, msgs[n].seqNum)} <= FullEntries(obs.messages)
  }

  lemma OneMoreFilled(env: Environment, obs0: Observation, report: CommitData, msgs: seq<Message>, n: nat, total0: nat,
                      obs: Observation, total: nat, filled: Observation)
    requires n < |msgs| && FilledUpTo(env, obs0, report, msgs, n, total0, obs, total) && Eligible(env, report, msgs[n])
    requires OneMoreIn(env, obs, report, msgs, n, filled) && total + 1 <= LENIENT_MAX_MSGS_PER_OBS
    ensures FilledUpTo(env, obs0, report, msgs, n + 1, total0, filled, total + 1)
  {
    FilledFurther(env, obs0, obs, filled, report, msgs, n);
    OneMore(FullEntries(obs.messages), FullEntries(filled.messages), (report.source, msgs[n].seqNum));
    StandGrows(env, obs, filled, report, msgs, n);
  }

  /** reverted is over with message n of the report replaced by its stub. */
  ghost predicate OneLess(env: Environment, over: Observation, report: CommitData, msgs: seq<Message>, n: nat,
                          reverted: Observation)
    requires n < |msgs|
  {
    && PutIn(env, over, report, msgs, msgs[n].seqNum, reverted)
    && StubOnly(reverted, report, msgs[n])
    && IsPut(over, report.source, msgs[n].seqNum, Stub(msgs[n]), [], reverted)
    && FullEntries(reverted.messages) <= FullEntries(over.messages) - {(report.source, msgs[n].seqNum)}
  }

  lemma OneLessCount(env: Environment, report: CommitData, msgs: seq<Message>, n: nat, obs: Observation,
                     over: Observation, reverted: Observation)
    requires n < |msgs| && OneMoreIn(env, obs, report, msgs, n, over) && OneLess(env, over, report, msgs, n, reverted)
    ensures |FullEntries(reverted.messages)| <= |FullEntries(obs.messages)|
  {
    SubsetSize(FullEntries(reverted.messages), FullEntries(obs.messages));
  }

  lemma StoppedHere(env: Environment, obs0: Observation, report: CommitData, msgs: seq<Message>, n: nat, total0: nat,
                    obs: Observation, total: nat, over: Observation, reverted: Observation)
    requires n < |msgs| && FilledUpTo(env, obs0, report, msgs, n, total0, obs, total) && Eligible(env, report, msgs[n])
    requires OneMoreIn(env, obs, report, msgs, n, over) && OneLess(env, over, report, msgs, n, reverted)
    requires total + 1 > LENIENT_MAX_MSGS_PER_OBS || TooLong(env, over)
    ensures FilledAndStopped(env, obs0, report, msgs, total0, reverted, n)
  {
    FilledFurther(env, obs0, obs, over, report, msgs, n);
    Reverted(env, obs0, over, reverted, report, msgs, n);
    OneLessCount(env, report, msgs, n, obs, over, reverted);
    RevertedIsCut(env, report, msgs, n, obs, over, reverted);
  }

  lemma CutFromStand(env: Environment, report: CommitData, msgs: seq<Message>, n: nat, obs: Observation,
                     reverted: Observation)
    requires n < |msgs| && StandUpTo(env, obs, report, msgs, n) && reverted.hashes == obs.hashes
    requires OnlyTouches(obs, reverted, report.source, {msgs[n].seqNum}) && StubOnly(reverted, report, msgs[n])
    ensures CutBefore(env, reverted, report, msgs, n)
  {
    assert msgs[n].seqNum in Numbers(msgs);
    assert StandsAt(env, obs, report, msgs, n, msgs[n].seqNum);
    forall s | s in Numbers(msgs) && s != msgs[n].seqNum
      ensures StandsAt(env, reverted, report, msgs, n, s)
    {
      assert StandsAt(env, obs, report, msgs, n, s);
      assert SameEntry(obs, reverted, report.source, s);
      EntryStands(env, obs, reverted, report, msgs, n, s);
    }
  }

  lemma RevertedIsCut(env: Environment, report: CommitData, msgs: seq<Message>, n: nat, obs: Observation,
                      over: Observation, reverted: Observation)
    requires n < |msgs| && StandUpTo(env, obs, report, msgs, n)
    requires OneMoreIn(env, obs, report, msgs, n, over) && OneLess(env, over, report, msgs, n, reverted)
    ensures CutBefore(env, reverted, report, msgs, n)
  {
    TouchesCompose(obs, over, reverted, report.source, {msgs[n].seqNum}, {msgs[n].seqNum});
    CutFromStand(env, report, msgs, n, obs, reverted);
  }

  /** An eligible message: put in, and taken out again if that breaks a limit. */
  method FillEligible(env: Environment, ghost obs0: Observation, obs: Observation, report: CommitData,
                      msgs: seq<Message>, i: nat,
                      ghost total0: nat, total: nat)
    returns (r: Filling)
    requires i < |msgs| && FilledUpTo(env, obs0, report, msgs, i, total0, obs, total)
    requires ReadFor(env, report, msgs) && Eligible(env, report, msgs[i])
    ensures r.More? ==> FilledUpTo(env, obs0, report, msgs, i + 1, total0, r.obs, r.total)
    ensures r.Full? ==> FilledAndStopped(env, obs0, report, msgs, total0, r.obs, r.last)
    ensures r.Failed? ==> Fails(env, report.source, msgs, r.error)
  {
    var filled := PutMessage(env, obs, report, msgs, i);
    var size := env.encodedSize(filled);
    if size.None? {
      return Failed(UnableToEncode(msgs[i], filled));
    }
    if total + 1 > LENIENT_MAX_MSGS_PER_OBS || size.value > env.maxSize {
      var reverted := TakeOut(env, filled, report, msgs, i);
      StoppedHere(env, obs0, report, msgs, i, total0, obs, total, filled, reverted);
      return Full(reverted, i);
    }
    OneMoreFilled(env, obs0, report, msgs, i, total0, obs, total, filled);
    return More(filled, total + 1);
  }

  lemma FilledNothing(env: Environment, obs0: Observation, report: CommitData, msgs: seq<Message>, total0: nat)
    requires Honest(env, obs0) && Has(obs0, report, msgs) && StandUpTo(env, obs0, report, msgs, 0)
    requires |FullEntries(obs0.messages)| <= total0 <= LENIENT_MAX_MSGS_PER_OBS
    ensures FilledUpTo(env, obs0, report, msgs, 0, total0, obs0, total0)
  {
    TouchesNothing(obs0, report.source, Numbers(msgs));
    assert Filled(env, obs0, obs0, report, msgs);
  }

  lemma TouchesNothing(obs: Observation, c: ChainSelector, nums: set<SeqNum>)
    ensures OnlyTouches(obs, obs, c, nums)
  {
  }

  /** Replaces stubs of a report by messages as long as the observation stays within its limits. */
  method FillMessages(env: Environment, obs0: Observation, report: CommitData, msgs: seq<Message>, total0: nat)
    returns (r: Filling)
    requires Honest(env, obs0) && Has(obs0, report, msgs) && ReadFor(env, report, msgs)
    requires StandUpTo(env, obs0, report, msgs, 0)
    requires |FullEntries(obs0.messages)| <= total0 <= LENIENT_MAX_MSGS_PER_OBS
    ensures r.More? ==> FilledUpTo(env, obs0, report, msgs, |msgs|, total0, r.obs, r.total)
    ensures r.Full? ==> FilledAndStopped(env, obs0, report, msgs, total0, r.obs, r.last)
    ensures r.Failed? ==> Fails(env, report.source, msgs, r.error)
  {
    r := More(obs0, total0);
    FilledNothing(env, obs0, report, msgs, total0);
    for i := 0 to |msgs|
      invariant r.More? && FilledUpTo(env, obs0, report, msgs, i, total0, r.obs, r.total)
    {
      if (report.source, msgs[i].id) !in env.inflight && msgs[i].seqNum !in report.executed {
        r := FillEligible(env, obs0, r.obs, report, msgs, i, total0, r.total);
        if !r.More? {
          return;
        }
      } else {
        NotEligible(env, obs0, report, msgs, i, total0, r.obs, r.total);
      }
    }
  }

  // ---------- the loop over the reports ----------

  /** The report gets into the observation: its chain is supported and its messages can be read. */
  ghost predicate Included(env: Environment, report: CommitData) {
    report.source in env.supported && Readable(env, report)
  }

  /** Its messages. */
  ghost function MessagesOf(env: Environment, report: CommitData): seq<Message>
    requires Included(env, report)
  {
    env.messages(report.source, report.range).value
  }

  /** The report is in, and every number has what all its messages give. */
  ghost predicate Complete(env: Environment, obs: Observation, report: CommitData)
    requires Included(env, report)
  {
    && Has(obs, report, MessagesOf(env, report))
    && StandUpTo(env, obs, report, MessagesOf(env, report), |MessagesOf(env, report)|)
  }

  ghost predicate CompleteUpTo(env: Environment, obs: Observation, reports: seq<CommitData>, n: nat)
    requires n <= |reports|
  {
    forall k :: 0 <= k < n && Included(env, reports[k]) ==> Complete(env, obs, reports[k])
  }

  /** How many eligible messages the first n reports have. */
  ghost function TotalEligible(env: Environment, reports: seq<CommitData>, n: nat): nat
    requires n <= |reports|
  {
    if n == 0 then 0
    else TotalEligible(env, reports, n - 1)
         + if Included(env, reports[n - 1])
           then EligibleCount(env, reports[n - 1], MessagesOf(env, reports[n - 1]), |MessagesOf(env, reports[n - 1])|)
           else 0
  }

  lemma EntryStays(env: Environment, obs: Observation, obs': Observation, d: ChainSelector, s: SeqNum,
                   c: ChainSelector, nums: set<SeqNum>)
    requires GoodObservation(env, obs) && d in obs.messages && s in obs.messages[d]
    requires OnlyTouches(obs, obs', c, nums) && (d == c ==> s !in nums)
    ensures d in obs'.messages && s in obs'.messages[d]
  {
    GoodHasEntry(env, obs, d, s);
    assert SameEntry(obs, obs', d, s);
  }

  lemma HasStays(env: Environment, obs: Observation, obs': Observation, report: CommitData, msgs: seq<Message>,
                 c: ChainSelector, nums: set<SeqNum>)
    requires GoodObservation(env, obs) && Has(obs, report, msgs) && OnlyTouches(obs, obs', c, nums)
    requires report.source == c ==> Numbers(msgs) !! nums
    requires msgs != []
    requires report.source in obs'.commitReports && report in obs'.commitReports[report.source]
    ensures Has(obs', report, msgs)
  {
    forall s | s in Numbers(msgs)
      ensures report.source in obs'.messages && s in obs'.messages[report.source]
    {
      EntryStays(env, obs, obs', report.source, s, c, nums);
    }
    assert msgs[0].seqNum in Numbers(msgs);
  }

  /** Reports only ever join a chain's list. */
  ghost predicate ReportsKept(obs: Observation, obs': Observation) {
    forall c, x :: c in obs.commitReports && x in obs.commitReports[c] ==>
        c in obs'.commitReports && x in obs'.commitReports[c]
  }

  lemma CompleteStays(env: Environment, obs: Observation, obs': Observation, reports: seq<CommitData>, k: nat, j: nat)
    requires GoodReports(reports) && j < k < |reports| && GoodObservation(env, obs)
    requires Included(env, reports[j]) && Complete(env, obs, reports[j])
    requires OnlyTouches(obs, obs', reports[k].source, reports[k].range.Nums()) && ReportsKept(obs, obs')
    ensures Complete(env, obs', reports[j])
  {
    NumbersApart(env, reports, k, j);
    HasStays(env, obs, obs', reports[j], MessagesOf(env, reports[j]), reports[k].source, reports[k].range.Nums());
    StandStays(env, obs, obs', reports[j], MessagesOf(env, reports[j]), |MessagesOf(env, reports[j])|,
               reports[k].source, reports[k].range.Nums());
  }

  /** Reports of one chain have messages with different numbers. */
  lemma NumbersApart(env: Environment, reports: seq<CommitData>, k: nat, j: nat)
    requires GoodReports(reports) && j < k < |reports| && Included(env, reports[j])
    ensures MessagesOf(env, reports[j]) != []
    ensures reports[j].source == reports[k].source ==> Numbers(MessagesOf(env, reports[j])) !! reports[k].range.Nums()
  {
    OverlapMeansShared(reports[j].range, reports[k].range);
    assert reports[j].range.start in reports[j].range.Nums();
  }

  lemma AllCompleteStay(env: Environment, obs: Observation, obs': Observation, reports: seq<CommitData>, k: nat)
    requires GoodReports(reports) && k < |reports| && GoodObservation(env, obs) && CompleteUpTo(env, obs, reports, k)
    requires OnlyTouches(obs, obs', reports[k].source, reports[k].range.Nums()) && ReportsKept(obs, obs')
    ensures CompleteUpTo(env, obs', reports, k)
  {
    forall j | 0 <= j < k && Included(env, reports[j])
      ensures Complete(env, obs', reports[j])
    {
      CompleteStays(env, obs, obs', reports, k, j);
    }
  }

  /** What holds after any number of reports. */
  ghost predicate Sound(env: Environment, obs: Observation, reports: seq<CommitData>, n: nat)
    requires n <= |reports|
  {
    Honest(env, obs) && ReportsFrom(obs, reports[..n]) && CompleteUpTo(env, obs, reports, n)
  }

  /** Why the loops stopped at message j of report k, with every earlier report complete. */
  ghost predicate StoppedAt(env: Environment, obs: Observation, reports: seq<CommitData>, k: nat, j: nat) {
    && k < |reports| && Included(env, reports[k]) && j < |MessagesOf(env, reports[k])|
    && CompleteUpTo(env, obs, reports, k) && Has(obs, reports[k], MessagesOf(env, reports[k]))
    && CutBefore(env, obs, reports[k], MessagesOf(env, reports[k]), j)
    && StopsAt(env, obs, reports[k], MessagesOf(env, reports[k]), j,
               TotalEligible(env, reports, k) + EligibleCount(env, reports[k], MessagesOf(env, reports[k]), j))
  }

  lemma AddedKeepsReports(obs: Observation, added: Observation, report: CommitData)
    requires added.commitReports ==
             obs.commitReports[report.source := ReportsOf(obs.commitReports, report.source) + [report]]
    ensures ReportsKept(obs, added)
  {
  }

  lemma AddedAndFilled(env: Environment, obs: Observation, added: Observation, obs': Observation, report: CommitData,
                       msgs: seq<Message>)
    requires Added(obs, report, msgs, added) && Filled(env, added, obs', report, msgs)
    ensures OnlyTouches(obs, obs', report.source, Numbers(msgs)) && ReportsKept(obs, obs')
    ensures obs'.commitReports ==
            obs.commitReports[report.source := ReportsOf(obs.commitReports, report.source) + [report]]
  {
    TouchesCompose(obs, added, obs', report.source, Numbers(msgs), Numbers(msgs));
    AddedKeepsReports(obs, added, report);
  }

  /** Report k after its stubs were added (added) and messages filled in (obs'). */
  lemma ReportHandled(env: Environment, obs: Observation, added: Observation, obs': Observation,
                      reports: seq<CommitData>, k: nat)
    requires GoodReports(reports) && k < |reports| && Included(env, reports[k]) && Sound(env, obs, reports, k)
    requires Added(obs, reports[k], MessagesOf(env, reports[k]), added)
    requires Filled(env, added, obs', reports[k], MessagesOf(env, reports[k]))
    ensures CompleteUpTo(env, obs', reports, k) && ReportsFrom(obs', reports[..k + 1])
  {
    AddedAndFilled(env, obs, added, obs', reports[k], MessagesOf(env, reports[k]));
    HandledGrows(obs, obs', reports, k);
    AllCompleteStay(env, obs, obs', reports, k);
  }

  lemma SkippedReport(env: Environment, obs: Observation, reports: seq<CommitData>, k: nat)
    requires k < |reports| && !Included(env, reports[k]) && Sound(env, obs, reports, k)
    ensures Sound(env, obs, reports, k + 1) && TotalEligible(env, reports, k + 1) == TotalEligible(env, reports, k)
  {
    assert forall x :: x in reports[..k] ==> x in reports[..k + 1];
  }

  lemma HandledIsSound(env: Environment, obs: Observation, reports: seq<CommitData>, k: nat)
    requires k < |reports| && Honest(env, obs) && ReportsFrom(obs, reports[..k + 1])
    requires CompleteUpTo(env, obs, reports, k)
    requires Included(env, reports[k]) && Complete(env, obs, reports[k])
    ensures Sound(env, obs, reports, k + 1)
  {
  }

  lemma FromAll(obs: Observation, reports: seq<CommitData>, n: nat)
    requires n <= |reports| && ReportsFrom(obs, reports[..n])
    ensures ReportsFrom(obs, reports)
  {
    assert forall x :: x in reports[..n] ==> x in reports;
  }

  /** At most total full messages, where total counts the eligible ones of the first n reports. */
  ghost predicate Counted(env: Environment, obs: Observation, reports: seq<CommitData>, n: nat, total: nat)
    requires n <= |reports|
  {
    |FullEntries(obs.messages)| <= total == TotalEligible(env, reports, n) <= LENIENT_MAX_MSGS_PER_OBS
  }

  /** A result cut off at message j of report k. */
  ghost predicate CutOff(env: Environment, obs: Observation, reports: seq<CommitData>, k: nat, j: nat) {
    && k < |reports| && Honest(env, obs) && ReportsFrom(obs, reports[..k + 1])
    && |FullEntries(obs.messages)| <= LENIENT_MAX_MSGS_PER_OBS
    && StoppedAt(env, obs, reports, k, j)
  }

  /** A message of the report has no hash, or makes the observation impossible to encode. */
  ghost predicate FailsIn(env: Environment, report: CommitData, error: Failure) {
    Included(env, report) && Fails(env, report.source, MessagesOf(env, report), error)
  }

  /** After n reports: ready for the next, cut off in the last, or failed. */
  ghost predicate Handled(env: Environment, reports: seq<CommitData>, n: nat, r: Filling)
    requires n <= |reports|
  {
    match r
    case Failed(error) => n > 0 && FailsIn(env, reports[n - 1], error)
    case More(obs, total) => Sound(env, obs, reports, n) && Counted(env, obs, reports, n, total)
    case Full(obs, last) => n > 0 && CutOff(env, obs, reports, n - 1, last)
  }

  lemma FilledIsComplete(env: Environment, added: Observation, report: CommitData, msgs: seq<Message>, total0: nat,
                         obs: Observation, total: nat)
    requires Included(env, report) && msgs == MessagesOf(env, report)
    requires FilledUpTo(env, added, report, msgs, |msgs|, total0, obs, total)
    ensures Filled(env, added, obs, report, msgs) && Honest(env, obs) && Complete(env, obs, report)
    ensures |FullEntries(obs.messages)| <= total ==
            total0 + EligibleCount(env, report, msgs, |msgs|) <= LENIENT_MAX_MSGS_PER_OBS
  {
  }

  lemma CountedNext(env: Environment, obs: Observation, reports: seq<CommitData>, k: nat, msgs: seq<Message>,
                    total: nat)
    requires k < |reports| && Included(env, reports[k]) && msgs == MessagesOf(env, reports[k])
    requires |FullEntries(obs.messages)| <= total <= LENIENT_MAX_MSGS_PER_OBS
    requires total == TotalEligible(env, reports, k) + EligibleCount(env, reports[k], msgs, |msgs|)
    ensures Counted(env, obs, reports, k + 1, total)
  {
  }

  /** All eligible messages of report k are in. */
  lemma HandledMore(env: Environment, obs: Observation, added: Observation, reports: seq<CommitData>, k: nat,
                    msgs: seq<Message>,
                    total0: nat, obs': Observation, total: nat)
    requires GoodReports(reports) && k < |reports| && Included(env, reports[k]) && Sound(env, obs, reports, k)
    requires msgs == MessagesOf(env, reports[k]) && Added(obs, reports[k], msgs, added)
    requires total0 == TotalEligible(env, reports, k)
    requires FilledUpTo(env, added, reports[k], msgs, |msgs|, total0, obs', total)
    ensures Sound(env, obs', reports, k + 1) && Counted(env, obs', reports, k + 1, total)
  {
    FilledIsComplete(env, added, reports[k], msgs, total0, obs', total);
    CountedNext(env, obs', reports, k, msgs, total);
    ReportHandled(env, obs, added, obs', reports, k);
    HandledIsSound(env, obs', reports, k);
  }

  lemma StoppedFacts(env: Environment, added: Observation, report: CommitData, msgs: seq<Message>, total0: nat,
                     obs: Observation, j: nat)
    requires FilledAndStopped(env, added, report, msgs, total0, obs, j)
    ensures Filled(env, added, obs, report, msgs) && Honest(env, obs) && Has(obs, report, msgs)
    ensures |FullEntries(obs.messages)| <= LENIENT_MAX_MSGS_PER_OBS
    ensures j < |msgs| && CutBefore(env, obs, report, msgs, j)
    ensures StopsAt(env, obs, report, msgs, j, total0 + EligibleCount(env, report, msgs, j))
  {
  }

  /** A limit was reached at message j of report k. */
  lemma HandledFull(env: Environment, obs: Observation, added: Observation, reports: seq<CommitData>, k: nat,
                    msgs: seq<Message>,
                    total0: nat, obs': Observation, j: nat)
    requires GoodReports(reports) && k < |reports| && Included(env, reports[k]) && Sound(env, obs, reports, k)
    requires msgs == MessagesOf(env, reports[k]) && Added(obs, reports[k], msgs, added)
    requires total0 == TotalEligible(env, reports, k)
    requires FilledAndStopped(env, added, reports[k], msgs, total0, obs', j)
    ensures CutOff(env, obs', reports, k, j)
  {
    StoppedFacts(env, added, reports[k], msgs, total0, obs', j);
    ReportHandled(env, obs, added, obs', reports, k);
  }

  lemma AddedCount(env: Environment, obs: Observation, added: Observation, reports: seq<CommitData>, k: nat, total: nat)
    requires k < |reports| && Included(env, reports[k]) && Counted(env, obs, reports, k, total)
    requires Added(obs, reports[k], MessagesOf(env, reports[k]), added)
    ensures |FullEntries(added.messages)| <= total == TotalEligible(env, reports, k) <= LENIENT_MAX_MSGS_PER_OBS
    ensures Has(added, reports[k], MessagesOf(env, reports[k]))
  {
    SubsetSize(FullEntries(added.messages), FullEntries(obs.messages));
  }

  /** A report whose messages were read. */
  method IncludeReport(env: Environment, obs: Observation, reports: seq<CommitData>, k: nat, total: nat,
                       msgs: seq<Message>)
    returns (r: Filling)
    requires GoodReports(reports) && k < |reports| && Sound(env, obs, reports, k)
    requires Counted(env, obs, reports, k, total)
    requires Included(env, reports[k]) && MessagesOf(env, reports[k]) == msgs
    ensures Handled(env, reports, k + 1, r)
  {
    var added := AddReport(env, obs, reports, k, reports[k], msgs);
    if added.Err? {
      return Failed(added.error);
    }
    AddedCount(env, obs, added.value, reports, k, total);
    r := FillMessages(env, added.value, reports[k], msgs, total);
    match r
    case More(obs', total') => HandledMore(env, obs, added.value, reports, k, msgs, total, obs', total');
    case Full(obs', j) => HandledFull(env, obs, added.value, reports, k, msgs, total, obs', j);
    case Failed(error) =>
  }

  /** One report: skipped if its chain is not supported or its messages cannot be read. */
  method HandleReport(env: Environment, obs: Observation, reports: seq<CommitData>, k: nat, total: nat)
    returns (r: Filling)
    requires GoodReports(reports) && k < |reports| && Sound(env, obs, reports, k)
    requires Counted(env, obs, reports, k, total)
    ensures Handled(env, reports, k + 1, r)
  {
    r := More(obs, total);
    var read := None;
    if reports[k].source in env.supported {
      read := ReadMessagesForReport(env, reports[k]);
    }
    if read.Some? {
      r := IncludeReport(env, obs, reports, k, total, read.value);
    } else {
      SkippedReport(env, obs, reports, k);
    }
  }

  lemma NothingYet(env: Environment, reports: seq<CommitData>)
    ensures Sound(env, OnlyF(env.fChain), reports, 0) && Counted(env, OnlyF(env.fChain), reports, 0, 0)
  {
    assert FullEntries(OnlyF(env.fChain).messages) == {};
  }

  /** A result that was not cut off. */
  ghost predicate Whole(env: Environment, obs: Observation, reports: seq<CommitData>) {
    && Honest(env, obs) && ReportsFrom(obs, reports)
    && |FullEntries(obs.messages)| <= LENIENT_MAX_MSGS_PER_OBS
    && CompleteUpTo(env, obs, reports, |reports|)
  }

  /** A result: the whole observation, one cut off, or a failure. */
  ghost predicate IsResult(env: Environment, reports: seq<CommitData>, r: Filling) {
    match r
    case Failed(error) => exists k :: 0 <= k < |reports| && FailsIn(env, reports[k], error)
    case More(obs, total) =>
      Whole(env, obs, reports) && total == TotalEligible(env, reports, |reports|) <= LENIENT_MAX_MSGS_PER_OBS
    case Full(obs, last) => exists k :: CutOff(env, obs, reports, k, last)
  }

  lemma HandledIsResult(env: Environment, reports: seq<CommitData>, n: nat, r: Filling)
    requires n <= |reports| && Handled(env, reports, n, r)
    requires r.More? ==> n == |reports|
    ensures IsResult(env, reports, r)
  {
    if r.More? {
      FromAll(r.obs, reports, n);
    }
  }

  /** The observation of the messages phase, for the commit reports in whatever order they come.
      It is good and made of what was read, holds at most 100 full messages, and is complete unless
      the limits stop it at some message; hashing and encoding may fail. */
  method GetMessagesObservation(env: Environment, reports: seq<CommitData>) returns (r: Filling)
    requires GoodReports(reports)
    ensures IsResult(env, reports, r)
  {
    r := More(OnlyF(env.fChain), 0);
    NothingYet(env, reports);
    for k := 0 to |reports|
      invariant r.More? && Handled(env, reports, k, r)
    {
      r := HandleReport(env, r.obs, reports, k, r.total);
      if !r.More? {
        HandledIsResult(env, reports, k + 1, r);
        return;
      }
    }
    HandledIsResult(env, reports, |reports|, r);
  }

  lemma FullIsFresh(env: Environment, obs: Observation, c: ChainSelector, s: SeqNum)
    requires GoodObservation(env, obs) && (c, s) in FullEntries(obs.messages)
    ensures (c, obs.messages[c][s].id) !in env.inflight
    ensures forall i :: 0 <= i < |obs.commitReports[c]| ==> s !in obs.commitReports[c][i].executed
  {
    assert GoodAt(env, obs, c);
    assert GoodEntry(env, c, obs.commitReports[c], s, obs.messages[c][s]);
  }

  /** Producer and checks agree: wherever the observation was cut off, all checks of the messages
      phase accept it exactly if no hash is empty and every f is positive; it has at most 100 full
      messages, none of them in flight, and none that any of its reports lists as executed. */
  lemma ResultIsAccepted(env: Environment, reports: seq<CommitData>, r: Filling)
    requires IsResult(env, reports, r) && !r.Failed?
    ensures ValidMessagesObservation(env.supported, r.obs) <==> HashesNonEmpty(r.obs) && PositiveF(env.fChain)
    ensures |FullEntries(r.obs.messages)| <= LENIENT_MAX_MSGS_PER_OBS
    ensures forall c, s :: (c, s) in FullEntries(r.obs.messages) ==>
              && (c, r.obs.messages[c][s].id) !in env.inflight && c in r.obs.commitReports
              && forall i :: 0 <= i < |r.obs.commitReports[c]| ==> s !in r.obs.commitReports[c][i].executed
  {
    GoodObservationIsValid(env, r.obs);
    forall c, s | (c, s) in FullEntries(r.obs.messages)
      ensures (c, r.obs.messages[c][s].id) !in env.inflight && c in r.obs.commitReports
      ensures forall i :: 0 <= i < |r.obs.commitReports[c]| ==> s !in r.obs.commitReports[c][i].executed
    {
      FullIsFresh(env, r.obs, c, s);
    }
  }
}
