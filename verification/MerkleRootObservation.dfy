/** What an honest oracle observes for the merkle-root processor, and the checks every observation
    has to pass before it is used. */
module MerkleRootObservation {
  import opened CcipTypes
  import opened MerkleRoot

  // ---------- validation ----------

  ghost predicate ValidRoots(roots: seq<MerkleRootChain>, supported: set<ChainSelector>) {
    && (forall i, j :: 0 <= i < j < |roots| ==> roots[i].chain != roots[j].chain)
    && forall i :: 0 <= i < |roots| ==> ValidRoot(roots[i], supported)
  }

  ghost predicate ValidRoot(r: MerkleRootChain, supported: set<ChainSelector>) {
    && r.chain in supported
    && r.onRamp != EMPTY_ADDRESS
    && r.root != EMPTY_BYTES32
    && r.range.start != 0 && r.range.end != 0
    && r.range.start <= r.range.end
  }

  ghost predicate ValidOnRampMax(s: seq<SeqNumChain>, supported: set<ChainSelector>) {
    && (forall i, j :: 0 <= i < j < |s| ==> s[i].chain != s[j].chain)
    && forall i :: 0 <= i < |s| ==> s[i].chain in supported
  }

  ghost predicate ValidOffRampNext(s: seq<SeqNumChain>, supportsDest: bool) {
    && (s != [] ==> supportsDest)
    && (forall i, j :: 0 <= i < j < |s| ==> s[i].chain != s[j].chain)
    && forall i :: 0 <= i < |s| ==> s[i].seqNum != 0 && s[i].chain != 0
  }

  /** The oracle may read what it observed, names no chain twice, and observed no zero. */
  ghost predicate ValidObservation(obs: Observation, supported: set<ChainSelector>, dest: ChainSelector) {
    && (forall c :: c in obs.fChain ==> obs.fChain[c] > 0)
    && ValidRoots(obs.merkleRoots, supported)
    && ValidOnRampMax(obs.onRampMax, supported)
    && ValidOffRampNext(obs.offRampNext, dest in supported)
  }

  method ValidateObservedMerkleRoots(roots: seq<MerkleRootChain>, supported: set<ChainSelector>) returns (ok: bool)
    ensures ok <==> ValidRoots(roots, supported)
  {
    var seen: set<ChainSelector> := {};
    for i := 0 to |roots|
      invariant seen == set k | 0 <= k < i :: roots[k].chain
      invariant ValidRoots(roots[..i], supported)
    {
      if roots[i].chain !in supported || roots[i].chain in seen {
        return false;
      }
      if roots[i].onRamp == EMPTY_ADDRESS || roots[i].root == EMPTY_BYTES32 {
        return false;
      }
      if roots[i].range.start == 0 || roots[i].range.end == 0 || roots[i].range.start > roots[i].range.end {
        return false;
      }
      seen := seen + {roots[i].chain};
    }
    assert roots[..|roots|] == roots;
    return true;
  }

  method ValidateObservedOnRampMaxSeqNums(s: seq<SeqNumChain>, supported: set<ChainSelector>) returns (ok: bool)
    ensures ok <==> ValidOnRampMax(s, supported)
  {
    var seen: set<ChainSelector> := {};
    for i := 0 to |s|
      invariant seen == set k | 0 <= k < i :: s[k].chain
      invariant ValidOnRampMax(s[..i], supported)
    {
      if s[i].chain !in supported || s[i].chain in seen {
        return false;
      }
      seen := seen + {s[i].chain};
    }
    assert s[..|s|] == s;
    return true;
  }

  method ValidateObservedOffRampMaxSeqNums(s: seq<SeqNumChain>, supportsDest: bool) returns (ok: bool)
    ensures ok <==> ValidOffRampNext(s, supportsDest)
  {
    if s == [] {
      return true;
    }
    if !supportsDest {
      return false;
    }
    var seen: set<ChainSelector> := {};
    for i := 0 to |s|
      invariant seen == set k | 0 <= k < i :: s[k].chain
      invariant ValidOffRampNext(s[..i], supportsDest)
    {
      if s[i].chain in seen || s[i].seqNum == 0 || s[i].chain == 0 {
        return false;
      }
      seen := seen + {s[i].chain};
    }
    assert s[..|s|] == s;
    return true;
  }

  method ValidateObservation(obs: Observation, supported: set<ChainSelector>, dest: ChainSelector) returns (ok: bool)
    ensures ok <==> ValidObservation(obs, supported, dest)
  {
    ok := Consensus.ValidateFChain(obs.fChain);
    if ok {
      ok := ValidateObservedMerkleRoots(obs.merkleRoots, supported);
    }
    if ok {
      ok := ValidateObservedOnRampMaxSeqNums(obs.onRampMax, supported);
    }
    if ok {
      ok := ValidateObservedOffRampMaxSeqNums(obs.offRampNext, dest in supported);
    }
  }

  // ---------- the honest observer ----------

  /** The sequence number and hash of a message read from a source chain. */
  datatype ReadMessage = ReadMessage(seqNum: SeqNum, hash: Bytes32)

  /** What an oracle can read: messages of a range, the root of a list of messages, an on-ramp
      address. Every read may fail. */
  datatype Reader = Reader(
    messages: ChainRange -> Option<seq<ReadMessage>>,
    merkleRoot: seq<ReadMessage> -> Option<Bytes32>,
    onRamp: ChainSelector -> Option<Address>)

  /** msgs are the messages numbered start, start + 1, ..., end, in order. */
  ghost predicate ExactlyNumbered(msgs: seq<ReadMessage>, r: SeqNumRange) {
    && |msgs| == r.end - r.start + 1
    && forall k :: 0 <= k < |msgs| ==> msgs[k].seqNum == r.start + k
  }

  /** root is the root of exactly the messages of one of the given ranges. */
  ghost predicate RootOfRange(ranges: seq<ChainRange>, supported: set<ChainSelector>, reader: Reader,
                              root: MerkleRootChain) {
    var cr := ChainRange(root.chain, root.range);
    && cr in ranges
    && root.chain in supported
    && reader.messages(cr).Some?
    && ExactlyNumbered(reader.messages(cr).value, cr.range)
    && reader.merkleRoot(reader.messages(cr).value) == Some(root.root)
    && reader.onRamp(root.chain) == Some(root.onRamp)
  }

  /** A root for every supported chain whose range was read without a gap. The ranges are handled
      concurrently in no particular order; here in theirs. */
  method ObserveMerkleRoots(ranges: seq<ChainRange>, supported: set<ChainSelector>, reader: Reader)
    returns (roots: seq<MerkleRootChain>)
    requires forall i :: 0 <= i < |ranges| ==> ranges[i].range.start <= ranges[i].range.end < MAX_SEQ_NUM
    ensures forall root :: root in roots <==> RootOfRange(ranges, supported, reader, root)
    ensures |roots| <= |ranges|
    ensures RangesAscend(ranges) ==> RootsAscend(roots)
  {
    roots := [];
    for i := 0 to |ranges|
      invariant |roots| <= i
      invariant forall j :: 0 <= j < |roots| ==> exists k :: 0 <= k < i && roots[j].chain == ranges[k].chain
      invariant RangesAscend(ranges) ==> RootsAscend(roots)
      invariant forall root :: root in roots <==> RootOfRange(ranges[..i], supported, reader, root)
    {
      var root := ObserveMerkleRoot(ranges[i], supported, reader);
      if root.Some? {
        roots := roots + [root.value];
      }
    }
    assert ranges[..|ranges|] == ranges;
  }

  method ObserveMerkleRoot(cr: ChainRange, supported: set<ChainSelector>, reader: Reader)
    returns (root: Option<MerkleRootChain>)
    requires cr.range.start <= cr.range.end < MAX_SEQ_NUM
    ensures root.Some? ==> root.value.chain == cr.chain && root.value.range == cr.range
                           && RootOfRange([cr], supported, reader, root.value)
    ensures root.None? ==> forall r: MerkleRootChain :: r.chain == cr.chain && r.range == cr.range ==>
                                                         !RootOfRange([cr], supported, reader, r)
  {
    if cr.chain !in supported {
      return None;
    }
    var read := reader.messages(cr);
    if read.None? {
      return None;
    }
    var msgs := read.value;
    if |msgs| != cr.range.end - cr.range.start + 1 {
      return None;
    }
    var msgIdx := 0;
    var seqNum: int := cr.range.start;
    while seqNum <= cr.range.end
      invariant cr.range.start <= seqNum <= cr.range.end + 1
      invariant msgIdx == seqNum - cr.range.start
      invariant forall k :: 0 <= k < msgIdx ==> msgs[k].seqNum == cr.range.start + k
    {
      if msgs[msgIdx].seqNum != seqNum {
        return None;
      }
      msgIdx := msgIdx + 1;
      seqNum := seqNum + 1;
    }
    var merkleRoot := reader.merkleRoot(msgs);
    var onRamp := reader.onRamp(cr.chain);
    if merkleRoot.None? || onRamp.None? {
      return None;
    }
    root := Some(MerkleRootChain(cr.chain, cr.range, onRamp.value, merkleRoot.value));
  }

  /** An honest observation: the reads that the state calls for and no others, roots only of the
      selected ranges, and the home chain's f where it could be read. */
  ghost predicate Honest(prev: Outcome, homeF: map<ChainSelector, nat>, obs: Observation) {
    && (forall c :: c in obs.fChain ==> c in homeF && obs.fChain[c] == homeF[c])
    && match NextState(prev)
       case SelectingRanges => obs.merkleRoots == []
       case BuildingReport =>
         && obs.onRampMax == [] && obs.offRampNext == []
         && forall i :: 0 <= i < |obs.merkleRoots| ==>
              ChainRange(obs.merkleRoots[i].chain, obs.merkleRoots[i].range) in prev.ranges
       case WaitingForTransmission => obs.merkleRoots == [] && obs.onRampMax == []
  }

  /** The observation of one round from what was read: what the state calls for, as it was read. */
  ghost predicate IsObservation(prev: Outcome, supported: set<ChainSelector>, reader: Reader,
                                onRampMax: seq<SeqNumChain>, offRampNext: seq<SeqNumChain>,
                                fChain: map<ChainSelector, nat>, obs: Observation) {
    && obs.fChain == fChain
    && obs.onRampMax == (if NextState(prev) == SelectingRanges then onRampMax else [])
    && obs.offRampNext == (if NextState(prev) == BuildingReport then [] else offRampNext)
    && if NextState(prev) != BuildingReport then obs.merkleRoots == []
       else
         && (forall root :: root in obs.merkleRoots <==> RootOfRange(prev.ranges, supported, reader, root))
         && (RangesAscend(prev.ranges) ==> RootsAscend(obs.merkleRoots))
  }

  method GetObservation(prev: Outcome, supported: set<ChainSelector>, reader: Reader,
                        onRampMax: seq<SeqNumChain>, offRampNext: seq<SeqNumChain>, fChain: map<ChainSelector, nat>)
    returns (obs: Observation)
    requires forall i :: 0 <= i < |prev.ranges| ==>
               prev.ranges[i].range.start <= prev.ranges[i].range.end < MAX_SEQ_NUM
    ensures IsObservation(prev, supported, reader, onRampMax, offRampNext, fChain, obs)
    ensures Honest(prev, fChain, obs)
  {
    match NextState(prev)
    case SelectingRanges =>
      obs := Observation([], onRampMax, offRampNext, fChain);
    case BuildingReport =>
      var roots := ObserveMerkleRoots(prev.ranges, supported, reader);
      assert forall i :: 0 <= i < |roots| ==> roots[i] in roots;
      obs := Observation(roots, [], [], fChain);
    case WaitingForTransmission =>
      obs := Observation([], [], offRampNext, fChain);
  }

  /** What has to be right about the reads that the state calls for: positive f values, lists of numbers
      that name no chain twice, only supported ones and no zeros, and no empty root or address. */
  ghost predicate ReadsValid(prev: Outcome, supported: set<ChainSelector>, dest: ChainSelector, reader: Reader,
                             onRampMax: seq<SeqNumChain>, offRampNext: seq<SeqNumChain>,
                             fChain: map<ChainSelector, nat>) {
    && (forall c :: c in fChain ==> fChain[c] > 0)
    && match NextState(prev)
       case SelectingRanges => ValidOnRampMax(onRampMax, supported) && ValidOffRampNext(offRampNext, dest in supported)
       case BuildingReport =>
         forall root: MerkleRootChain :: RootOfRange(prev.ranges, supported, reader, root) ==>
           root.onRamp != EMPTY_ADDRESS && root.root != EMPTY_BYTES32
       case WaitingForTransmission => ValidOffRampNext(offRampNext, dest in supported)
  }

  lemma ObservedRootsValid(ranges: seq<ChainRange>, supported: set<ChainSelector>, reader: Reader,
                           roots: seq<MerkleRootChain>)
    requires RootsAscend(roots) && forall root :: root in roots <==> RootOfRange(ranges, supported, reader, root)
    requires forall r :: r in ranges ==> 1 <= r.range.start <= r.range.end
    ensures ValidRoots(roots, supported) <==>
            forall root: MerkleRootChain :: RootOfRange(ranges, supported, reader, root) ==>
              root.onRamp != EMPTY_ADDRESS && root.root != EMPTY_BYTES32
  {
    forall i | 0 <= i < |roots|
      ensures ValidRoot(roots[i], supported) <==> roots[i].onRamp != EMPTY_ADDRESS && roots[i].root != EMPTY_BYTES32
    {
      assert roots[i] in roots;
      assert ChainRange(roots[i].chain, roots[i].range) in ranges;
    }
    if ValidRoots(roots, supported) {
      forall root: MerkleRootChain | RootOfRange(ranges, supported, reader, root)
        ensures root.onRamp != EMPTY_ADDRESS && root.root != EMPTY_BYTES32
      {
        assert root in roots;
        var i :| 0 <= i < |roots| && roots[i] == root;
        assert ValidRoot(roots[i], supported);
      }
    }
  }

  /** An honest observation passes the checks exactly if its reads are right. The ranges it is about are
      those of a selection: by chain, starting at one or later, and not reversed. */
  lemma HonestObservationIsValid(prev: Outcome, supported: set<ChainSelector>, dest: ChainSelector, reader: Reader,
                                 onRampMax: seq<SeqNumChain>, offRampNext: seq<SeqNumChain>,
                                 fChain: map<ChainSelector, nat>, obs: Observation)
    requires IsObservation(prev, supported, reader, onRampMax, offRampNext, fChain, obs)
    requires RangesAscend(prev.ranges) && forall r :: r in prev.ranges ==> 1 <= r.range.start <= r.range.end
    ensures ValidObservation(obs, supported, dest) <==>
            ReadsValid(prev, supported, dest, reader, onRampMax, offRampNext, fChain)
  {
    if NextState(prev) == BuildingReport {
      ObservedRootsValid(prev.ranges, supported, reader, obs.merkleRoots);
    }
  }
}
