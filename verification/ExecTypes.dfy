/** The data of the execute plugin. */
module ExecTypes {
  import opened CcipTypes

  /** The fields of a message other than its id and number, and whether the library counts a
      message with these fields as pseudo-deleted. */
  datatype Content = Content(digest: nat, stripped: bool)

  /** A message; without content all its other fields are zero. */
  datatype Message = Message(id: Bytes32, seqNum: SeqNum, content: Option<Content>) {
    predicate IsPseudoDeleted() {
      content.None? || content.value.stripped
    }
  }

  /** The message with nothing but its id and number. */
  function Stub(m: Message): Message {
    Message(m.id, m.seqNum, None)
  }

  type TokenData = nat

  type MessageTokenData = seq<TokenData>

  /** A committed root with its range, and what has been gathered about its messages. */
  datatype CommitData = CommitData(
    source: ChainSelector,
    onRamp: Address,
    timestamp: int,
    blockNum: nat,
    merkleRoot: Bytes32,
    range: SeqNumRange,
    executed: seq<SeqNum>,
    messages: seq<Message>,
    hashes: seq<Bytes32>,
    tokenData: seq<MessageTokenData>)

  type CommitObservations = map<ChainSelector, seq<CommitData>>

  type MessageObservations = map<ChainSelector, map<SeqNum, Message>>

  type MessageHashes = map<ChainSelector, map<SeqNum, Bytes32>>

  type TokenDataObservations = map<ChainSelector, map<SeqNum, MessageTokenData>>

  datatype Observation = Observation(
    commitReports: CommitObservations,
    messages: MessageObservations,
    hashes: MessageHashes,
    tokenData: TokenDataObservations,
    fChain: map<ChainSelector, nat>)

  /** An observation of nothing but the f of the chains. */
  function OnlyF(fChain: map<ChainSelector, nat>): Observation {
    Observation(map[], map[], map[], map[], fChain)
  }

  datatype AttributedObservation = AttributedObservation(oracle: OracleId, obs: Observation)

  /** What a nested map holds for chain c, nothing if it has no entry for it. */
  function On<V>(m: map<ChainSelector, map<SeqNum, V>>, c: ChainSelector): map<SeqNum, V> {
    if c in m then m[c] else map[]
  }

  ghost predicate DistinctOracles(aos: seq<AttributedObservation>) {
    forall i, j :: 0 <= i < j < |aos| ==> aos[i].oracle != aos[j].oracle
  }

  /** The numbers that a list of reports covers. */
  ghost function Covered(reports: seq<CommitData>): set<SeqNum> {
    if reports == [] then {}
    else Covered(reports[..|reports| - 1]) + reports[|reports| - 1].range.Nums()
  }

  lemma {:induction false} CoveredBy(reports: seq<CommitData>, s: SeqNum)
    ensures s in Covered(reports) <==> exists i :: 0 <= i < |reports| && reports[i].range.Contains(s)
  {
    if reports != [] {
      var front, last := reports[..|reports| - 1], reports[|reports| - 1];
      CoveredBy(front, s);
      if s in Covered(front) {
        var i :| 0 <= i < |front| && front[i].range.Contains(s);
        assert reports[i].range.Contains(s);
      }
      if s in last.range.Nums() {
        assert reports[|reports| - 1].range.Contains(s);
      }
    }
  }
}
