/** The consensus on messages by counting who reports which id, number and content. */
module ExecMessageCount {
  import opened CcipTypes
  import opened ExecTypes
  import opened ExecMessageConsensus

  /** The oracle reports a message with this id and number on chain c, under whatever key. */
  ghost predicate Names(msgs: MessageObservations, c: ChainSelector, id: Bytes32, s: SeqNum) {
    c in msgs && exists k :: k in msgs[c] && msgs[c][k].id == id && msgs[c][k].seqNum == s
  }

  ghost function Namers(aos: seq<AttributedObservation>, c: ChainSelector, id: Bytes32, s: SeqNum): set<OracleId> {
    set i | 0 <= i < |aos| && Names(aos[i].obs.messages, c, id, s) :: aos[i].oracle
  }

  /** The oracle reports exactly m on chain c, under whatever key. */
  ghost predicate Reports(msgs: MessageObservations, c: ChainSelector, m: Message) {
    c in msgs && exists k :: k in msgs[c] && msgs[c][k] == m
  }

  ghost function Reporters(aos: seq<AttributedObservation>, c: ChainSelector, m: Message): set<OracleId> {
    set i | 0 <= i < |aos| && Reports(aos[i].obs.messages, c, m) :: aos[i].oracle
  }

  /** It has content, which the library does not count as stripped. */
  ghost predicate Solid(m: Message) {
    m.content.Some? && !m.content.value.stripped
  }

  lemma NamingIsVoting(msgs: MessageObservations, c: ChainSelector, id: Bytes32, s: SeqNum)
    ensures Names(msgs, c, id, s) <==> CastsFor(On(msgs, c), Message(id, s, None))
  {
    if Names(msgs, c, id, s) {
      var k :| k in msgs[c] && msgs[c][k].id == id && msgs[c][k].seqNum == s;
      assert VoteFor(On(msgs, c)[k], Message(id, s, None));
    }
  }

  lemma NamersVote(aos: seq<AttributedObservation>, c: ChainSelector, id: Bytes32, s: SeqNum)
    ensures Namers(aos, c, id, s) == Voters(aos, c, Message(id, s, None))
  {
    forall i | 0 <= i < |aos|
      ensures Names(aos[i].obs.messages, c, id, s) <==> CastsFor(On(aos[i].obs.messages, c), Message(id, s, None))
    {
      NamingIsVoting(aos[i].obs.messages, c, id, s);
    }
  }

  lemma ReportingIsVoting(msgs: MessageObservations, c: ChainSelector, m: Message)
    requires m.content.Some?
    ensures CastsFor(On(msgs, c), m) <==> Solid(m) && Reports(msgs, c, m)
  {
    if Solid(m) && Reports(msgs, c, m) {
      var k :| k in msgs[c] && msgs[c][k] == m;
      assert VoteFor(On(msgs, c)[k], m);
    }
  }

  lemma ReportersVote(aos: seq<AttributedObservation>, c: ChainSelector, m: Message)
    requires m.content.Some?
    ensures Voters(aos, c, m) == if Solid(m) then Reporters(aos, c, m) else {}
  {
    forall i | 0 <= i < |aos|
      ensures CastsFor(On(aos[i].obs.messages, c), m) <==> Solid(m) && Reports(aos[i].obs.messages, c, m)
    {
      ReportingIsVoting(aos[i].obs.messages, c, m);
    }
  }

  /** By counting alone: f + 1 oracles name the id of m under number s, and no other id has as many; m
      is just id and number, or f + 1 oracles report exactly m; and f + 1 report nothing else that is
      solid. */
  ghost predicate Counted(aos: seq<AttributedObservation>, f: nat, c: ChainSelector, s: SeqNum, m: Message) {
    && m.seqNum == s && |Namers(aos, c, m.id, s)| >= f + 1
    && (forall id :: |Namers(aos, c, id, s)| >= f + 1 ==> id == m.id)
    && (m.content.None? || (Solid(m) && |Reporters(aos, c, m)| >= f + 1))
    && forall x :: Solid(x) && x.seqNum == s && |Reporters(aos, c, x)| >= f + 1 ==> x == m
  }

  /** What winning means: for a message without content f + 1 oracles name it, for another one f + 1
      report it and it is solid. */
  lemma WinsByCount(aos: seq<AttributedObservation>, f: nat, c: ChainSelector, m: Message)
    ensures m.content.None? ==> (Wins(aos, c, f, m) <==> |Namers(aos, c, m.id, m.seqNum)| >= f + 1)
    ensures m.content.Some? ==> (Wins(aos, c, f, m) <==> Solid(m) && |Reporters(aos, c, m)| >= f + 1)
  {
    if m.content.None? {
      NamersVote(aos, c, m.id, m.seqNum);
    } else {
      ReportersVote(aos, c, m);
    }
  }

  lemma ChosenIsCounted(aos: seq<AttributedObservation>, f: nat, c: ChainSelector, s: SeqNum, m: Message)
    requires WinsWithStub(aos, f, c, s, m)
    ensures Counted(aos, f, c, s, m)
  {
    WinsByCount(aos, f, c, m);
    StubHasMoreVoters(aos, c, m);
    WinsByCount(aos, f, c, Stub(m));
    forall id | |Namers(aos, c, id, s)| >= f + 1
      ensures id == m.id
    {
      WinsByCount(aos, f, c, Message(id, s, None));
    }
    forall x | Solid(x) && x.seqNum == s && |Reporters(aos, c, x)| >= f + 1
      ensures x == m
    {
      WinsByCount(aos, f, c, x);
    }
  }

  lemma CountedIsChosen(aos: seq<AttributedObservation>, f: nat, c: ChainSelector, s: SeqNum, m: Message)
    requires Counted(aos, f, c, s, m)
    ensures WinsWithStub(aos, f, c, s, m)
  {
    WinsByCount(aos, f, c, m);
    forall w | Wins(aos, c, f, w) && w.seqNum == s
      ensures w == m || w == Stub(m)
    {
      WinsByCount(aos, f, c, w);
    }
  }

  /** The consensus has m under number s of chain c exactly if counting says so. */
  lemma ConsensusByCount(aos: seq<AttributedObservation>, fChain: map<ChainSelector, nat>, r: MessageObservations,
                         c: ChainSelector, s: SeqNum, m: Message)
    requires IsMessageConsensus(aos, fChain, r)
    ensures c in r && s in r[c] && r[c][s] == m <==> c in fChain && Counted(aos, fChain[c], c, s, m)
  {
    if c in fChain {
      OfChain(aos, fChain, r, c);
      ChosenExactly(aos, fChain[c], c, s, m);
      if Counted(aos, fChain[c], c, s, m) {
        CountedIsChosen(aos, fChain[c], c, s, m);
      }
      if WinsWithStub(aos, fChain[c], c, s, m) {
        ChosenIsCounted(aos, fChain[c], c, s, m);
      }
    }
  }
}
