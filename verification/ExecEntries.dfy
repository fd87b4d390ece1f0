/** What an observation of the messages phase has under every number, field by field. */
module ExecEntries {
  import opened CcipTypes
  import opened ExecTypes
  import opened ExecObservation
  import opened ExecFilling
  import opened ExecMessages

  /** The message is neither in flight nor executed. */
  ghost predicate Unsent(env: Environment, report: CommitData, m: Message) {
    && !(exists p :: p in env.inflight && p.0 == report.source && p.1 == m.id)
    && !(exists i :: 0 <= i < |report.executed| && report.executed[i] == m.seqNum)
  }

  lemma UnsentIsEligible(env: Environment, report: CommitData, m: Message)
    ensures Eligible(env, report, m) <==> Unsent(env, report, m)
  {
    if (report.source, m.id) in env.inflight {
      var p := (report.source, m.id);
      assert p in env.inflight && p.0 == report.source && p.1 == m.id;
    }
  }

  /** Of the first n messages, k is the last one with number s that has not been sent. */
  ghost predicate LastUnsent(env: Environment, report: CommitData, msgs: seq<Message>, n: nat, s: SeqNum, k: int)
    requires n <= |msgs|
  {
    && 0 <= k < n && msgs[k].seqNum == s && Unsent(env, report, msgs[k])
    && forall i :: k < i < n && msgs[i].seqNum == s ==> !Unsent(env, report, msgs[i])
  }

  ghost predicate AnyUnsent(env: Environment, report: CommitData, msgs: seq<Message>, n: nat, s: SeqNum)
    requires n <= |msgs|
  {
    exists i :: 0 <= i < n && msgs[i].seqNum == s && Unsent(env, report, msgs[i])
  }

  /** Number s of the report after its first n messages: the last unsent one with its token data, or else
      just id and number of its last message; and in any case that message's hash. */
  ghost predicate EntryAfter(env: Environment, obs: Observation, report: CommitData, msgs: seq<Message>, n: nat,
                             s: SeqNum)
    requires n <= |msgs|
  {
    && HasEntry(obs, report.source, s)
    && (exists k :: LastWith(msgs, s, k) && Some(obs.hashes[report.source][s]) == env.hash(msgs[k]))
    && if AnyUnsent(env, report, msgs, n, s)
       then exists k :: LastUnsent(env, report, msgs, n, s, k)
                        && obs.messages[report.source][s] == msgs[k]
                        && obs.tokenData[report.source][s] == env.tokenData(msgs[k])
       else exists k :: LastWith(msgs, s, k)
                        && obs.messages[report.source][s] == Message(msgs[k].id, s, None)
                        && obs.tokenData[report.source][s] == []
  }

  lemma LastIsSame(env: Environment, report: CommitData, msgs: seq<Message>, n: nat, s: SeqNum)
    requires n <= |msgs|
    ensures forall k :: LastUnsent(env, report, msgs, n, s, k) <==> LastEligible(env, report, msgs, n, s, k)
    ensures NoneEligible(env, report, msgs, n, s) <==> !AnyUnsent(env, report, msgs, n, s)
  {
    forall i | 0 <= i < n
      ensures Eligible(env, report, msgs[i]) <==> Unsent(env, report, msgs[i])
    {
      UnsentIsEligible(env, report, msgs[i]);
    }
  }

  lemma {:induction false} SomeLast(env: Environment, report: CommitData, msgs: seq<Message>, n: nat, s: SeqNum, i: nat)
    requires i < n <= |msgs| && msgs[i].seqNum == s && Eligible(env, report, msgs[i])
    ensures exists k :: LastEligible(env, report, msgs, n, s, k)
    decreases n
  {
    if msgs[n - 1].seqNum == s && Eligible(env, report, msgs[n - 1]) {
      assert LastEligible(env, report, msgs, n, s, n - 1);
    } else {
      SomeLast(env, report, msgs, n - 1, s, i);
      var k :| LastEligible(env, report, msgs, n - 1, s, k);
      assert LastEligible(env, report, msgs, n, s, k);
    }
  }

  lemma StandsIsEntry(env: Environment, obs: Observation, report: CommitData, msgs: seq<Message>, n: nat, s: SeqNum)
    requires n <= |msgs| && StandsAt(env, obs, report, msgs, n, s)
    ensures EntryAfter(env, obs, report, msgs, n, s)
  {
    LastIsSame(env, report, msgs, n, s);
    if NoneEligible(env, report, msgs, n, s) {
      var k :| LastWith(msgs, s, k) && obs.messages[report.source][s] == Stub(msgs[k]);
      assert Stub(msgs[k]) == Message(msgs[k].id, s, None);
    } else {
      var i :| 0 <= i < n && msgs[i].seqNum == s && Eligible(env, report, msgs[i]);
      SomeLast(env, report, msgs, n, s, i);
      var k :| LastEligible(env, report, msgs, n, s, k);
      assert LastUnsent(env, report, msgs, n, s, k);
    }
  }

  // ---------- the whole result ----------

  /** Report k is included and has a message for number s. */
  ghost predicate IsPlace(env: Environment, reports: seq<CommitData>, k: int, s: SeqNum) {
    0 <= k < |reports| && Included(env, reports[k]) && s in Numbers(MessagesOf(env, reports[k]))
  }

  /** Places before message j of report n, by report and message, that hold unsent messages. */
  ghost function UnsentBefore(env: Environment, reports: seq<CommitData>, n: int, j: int): set<(int, int)> {
    set a, b | 0 <= a < |reports| && Included(env, reports[a]) && 0 <= b < |MessagesOf(env, reports[a])|
               && (a < n || (a == n && b < j)) && Unsent(env, reports[a], MessagesOf(env, reports[a])[b]) :: (a, b)
  }

  lemma OneMorePlace(env: Environment, reports: seq<CommitData>, n: nat, msgs: seq<Message>, j: nat)
    requires n < |reports| && Included(env, reports[n]) && msgs == MessagesOf(env, reports[n]) && j < |msgs|
    ensures |UnsentBefore(env, reports, n, j + 1)| ==
            |UnsentBefore(env, reports, n, j)| + if Unsent(env, reports[n], msgs[j]) then 1 else 0
  {
    var before := UnsentBefore(env, reports, n, j);
    assert UnsentBefore(env, reports, n, j + 1) == before + if Unsent(env, reports[n], msgs[j]) then {(n, j)} else {};
    assert (n, j) !in before;
  }

  lemma {:induction false} CountInReport(env: Environment, reports: seq<CommitData>, n: nat, msgs: seq<Message>, j: nat)
    requires n < |reports| && Included(env, reports[n]) && msgs == MessagesOf(env, reports[n]) && j <= |msgs|
    ensures |UnsentBefore(env, reports, n, j)| ==
            |UnsentBefore(env, reports, n, 0)| + EligibleCount(env, reports[n], msgs, j)
  {
    if j > 0 {
      CountInReport(env, reports, n, msgs, j - 1);
      UnsentIsEligible(env, reports[n], msgs[j - 1]);
      OneMorePlace(env, reports, n, msgs, j - 1);
    }
  }

  lemma NextReport(env: Environment, reports: seq<CommitData>, n: nat)
    requires n < |reports|
    ensures UnsentBefore(env, reports, n + 1, 0) ==
            UnsentBefore(env, reports, n, if Included(env, reports[n]) then |MessagesOf(env, reports[n])| else 0)
  {
  }

  /** The counter of the loops is the number of unsent messages they have passed. */
  lemma {:induction false} CountIsUnsent(env: Environment, reports: seq<CommitData>, n: nat)
    requires n <= |reports|
    ensures TotalEligible(env, reports, n) == |UnsentBefore(env, reports, n, 0)|
  {
    if n == 0 {
      assert UnsentBefore(env, reports, 0, 0) == {};
    } else {
      CountIsUnsent(env, reports, n - 1);
      NextReport(env, reports, n - 1);
      if Included(env, reports[n - 1]) {
        var msgs := MessagesOf(env, reports[n - 1]);
        CountInReport(env, reports, n - 1, msgs, |msgs|);
      }
    }
  }

  /** Not cut off: every number of every included report has what all its messages give, so an unsent
      message is in, with its token data, and one that has been sent is not; there are at most 100
      unsent ones. */
  lemma WholeExactly(env: Environment, reports: seq<CommitData>, r: Filling)
    requires IsResult(env, reports, r) && r.More?
    ensures r.total == |UnsentBefore(env, reports, |reports|, 0)| <= 100
    ensures forall k, s :: IsPlace(env, reports, k, s) ==>
              EntryAfter(env, r.obs, reports[k], MessagesOf(env, reports[k]), |MessagesOf(env, reports[k])|, s)
  {
    CountIsUnsent(env, reports, |reports|);
    forall k, s | IsPlace(env, reports, k, s)
      ensures EntryAfter(env, r.obs, reports[k], MessagesOf(env, reports[k]), |MessagesOf(env, reports[k])|, s)
    {
      assert Complete(env, r.obs, reports[k]);
      var msgs := MessagesOf(env, reports[k]);
      StandsIsEntry(env, r.obs, reports[k], msgs, |msgs|, s);
    }
  }

  /** With message m of report k put in, the observation is too long. */
  ghost predicate TooLongWith(env: Environment, obs: Observation, c: ChainSelector, m: Message) {
    && c in obs.messages && c in obs.tokenData
    && var ms: map<SeqNum, Message> := obs.messages[c][m.seqNum := m];
       var ts: map<SeqNum, MessageTokenData> := obs.tokenData[c][m.seqNum := env.tokenData(m)];
       var size := env.encodedSize(obs.(messages := obs.messages[c := ms], tokenData := obs.tokenData[c := ts]));
       size.Some? && size.value > env.maxSize
  }

  /** Cut off: at an unsent message j of report k, since 100 unsent ones have been passed or one more is
      too long. Every number of an earlier report has what all its messages give, every number of
      report k what the messages before j give, except that of message j, which has a stub. */
  lemma CutExactly(env: Environment, reports: seq<CommitData>, r: Filling, k: nat, j: nat, msgs: seq<Message>)
    requires r.Full? && CutOff(env, r.obs, reports, k, j) && msgs == MessagesOf(env, reports[k])
    ensures Unsent(env, reports[k], msgs[j])
    ensures |UnsentBefore(env, reports, k, j)| == 100 || TooLongWith(env, r.obs, reports[k].source, msgs[j])
    ensures forall a, s :: IsPlace(env, reports, a, s) && a < k ==>
              EntryAfter(env, r.obs, reports[a], MessagesOf(env, reports[a]), |MessagesOf(env, reports[a])|, s)
    ensures forall s :: s in Numbers(msgs) && s != msgs[j].seqNum ==> EntryAfter(env, r.obs, reports[k], msgs, j, s)
    ensures HasEntry(r.obs, reports[k].source, msgs[j].seqNum)
    ensures r.obs.messages[reports[k].source][msgs[j].seqNum] == Message(msgs[j].id, msgs[j].seqNum, None)
    ensures r.obs.tokenData[reports[k].source][msgs[j].seqNum] == []
  {
    UnsentIsEligible(env, reports[k], msgs[j]);
    CountIsUnsent(env, reports, k);
    CountInReport(env, reports, k, msgs, j);
    forall a, s | IsPlace(env, reports, a, s) && a < k
      ensures EntryAfter(env, r.obs, reports[a], MessagesOf(env, reports[a]), |MessagesOf(env, reports[a])|, s)
    {
      assert Complete(env, r.obs, reports[a]);
      StandsIsEntry(env, r.obs, reports[a], MessagesOf(env, reports[a]), |MessagesOf(env, reports[a])|, s);
    }
    forall s | s in Numbers(msgs) && s != msgs[j].seqNum
      ensures EntryAfter(env, r.obs, reports[k], msgs, j, s)
    {
      StandsIsEntry(env, r.obs, reports[k], msgs, j, s);
    }
  }

  /** Of messages with different numbers, one with content is in with its token data exactly if it has
      not been sent. */
  lemma SentExactly(env: Environment, reports: seq<CommitData>, r: Filling, k: nat, msgs: seq<Message>, j: nat)
    requires IsResult(env, reports, r) && r.More?
    requires k < |reports| && Included(env, reports[k]) && msgs == MessagesOf(env, reports[k]) && j < |msgs|
    requires msgs[j].content.Some? && forall i :: 0 <= i < |msgs| && i != j ==> msgs[i].seqNum != msgs[j].seqNum
    ensures HasEntry(r.obs, reports[k].source, msgs[j].seqNum)
    ensures Unsent(env, reports[k], msgs[j]) <==>
            && r.obs.messages[reports[k].source][msgs[j].seqNum] == msgs[j]
            && r.obs.tokenData[reports[k].source][msgs[j].seqNum] == env.tokenData(msgs[j])
  {
    WholeExactly(env, reports, r);
    assert msgs[j].seqNum in Numbers(msgs);
    assert IsPlace(env, reports, k, msgs[j].seqNum);
    EntryDecides(env, r.obs, reports[k], msgs, j, msgs[j].seqNum);
  }

  lemma EntryDecides(env: Environment, obs: Observation, report: CommitData, msgs: seq<Message>, j: nat, s: SeqNum)
    requires j < |msgs| && s == msgs[j].seqNum && EntryAfter(env, obs, report, msgs, |msgs|, s)
    requires msgs[j].content.Some? && forall i :: 0 <= i < |msgs| && i != j ==> msgs[i].seqNum != s
    ensures Unsent(env, report, msgs[j]) <==>
            && obs.messages[report.source][s] == msgs[j]
            && obs.tokenData[report.source][s] == env.tokenData(msgs[j])
  {
    if Unsent(env, report, msgs[j]) {
      assert AnyUnsent(env, report, msgs, |msgs|, s);
    }
  }

  // ---------- where entries come from ----------

  /** Every entry has number and id of a message that was read for its number, and its content if any. */
  lemma EntryIsRead(env: Environment, obs: Observation, c: ChainSelector, s: SeqNum)
    requires Honest(env, obs) && c in obs.messages && s in obs.messages[c]
    ensures exists range: SeqNumRange, i: int ::
              && env.messages(c, range).Some? && 0 <= i < |env.messages(c, range).value|
              && var x := env.messages(c, range).value[i];
                 && x.seqNum == s && obs.messages[c][s].seqNum == s && obs.messages[c][s].id == x.id
                 && (obs.messages[c][s].content == None || obs.messages[c][s].content == x.content)
  {
    GoodHasEntry(env, obs, c, s);
    var m := obs.messages[c][s];
    assert Sourced(env, c, s, m, obs.hashes[c][s], obs.tokenData[c][s]);
    assert GoodAt(env, obs, c);
    assert GoodEntry(env, c, obs.commitReports[c], s, m);
    var x :| Read(env, c, x) && (m == x || m == Stub(x));
    var range: SeqNumRange :| env.messages(c, range).Some? && x in env.messages(c, range).value;
    var i :| 0 <= i < |env.messages(c, range).value| && env.messages(c, range).value[i] == x;
  }
}
