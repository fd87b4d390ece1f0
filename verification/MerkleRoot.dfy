/** The merkle-root processor of the commit plugin: one round maps the previous outcome and the
    observations of the oracles to the next outcome. */
module MerkleRoot {
  import opened CcipTypes
  import opened Sorting
  import opened Votes
  import opened Consensus
  import opened Agreement

  datatype SeqNumChain = SeqNumChain(chain: ChainSelector, seqNum: SeqNum)

  datatype ChainRange = ChainRange(chain: ChainSelector, range: SeqNumRange)

  datatype MerkleRootChain = MerkleRootChain(chain: ChainSelector, range: SeqNumRange, onRamp: Address, root: Bytes32)

  datatype Observation = Observation(
    merkleRoots: seq<MerkleRootChain>,
    onRampMax: seq<SeqNumChain>,
    offRampNext: seq<SeqNumChain>,
    fChain: map<ChainSelector, nat>)

  datatype AttributedObservation = AttributedObservation(oracle: OracleId, obs: Observation)

  datatype OutcomeType =
    | Unset
    | ReportIntervalsSelected
    | ReportGenerated
    | ReportEmpty
    | ReportInFlight
    | ReportTransmitted
    | ReportTransmissionFailed

  datatype Outcome = Outcome(
    kind: OutcomeType,
    ranges: seq<ChainRange>,
    roots: seq<MerkleRootChain>,
    offRampNext: seq<SeqNumChain>,
    attempts: nat)

  datatype ProcessorState = SelectingRanges | BuildingReport | WaitingForTransmission

  /** The configuration; the limits are the ones its validation demands. */
  datatype Config = Config(f: nat, dest: ChainSelector, maxTreeSize: nat, maxAttempts: nat, multipleReports: bool) {
    ghost predicate Valid() {
      1 <= maxTreeSize < UINT64_MODULUS
    }
  }

  function OfKind(kind: OutcomeType): Outcome {
    Outcome(kind, [], [], [], 0)
  }

  function NextState(o: Outcome): ProcessorState {
    match o.kind
    case ReportIntervalsSelected => BuildingReport
    case ReportGenerated => WaitingForTransmission
    case ReportInFlight => WaitingForTransmission
    case _ => SelectingRanges
  }

  // ---------- votes ----------

  function RootEntries(obs: Observation): seq<(ChainSelector, MerkleRootChain)> {
    seq(|obs.merkleRoots|, i requires 0 <= i < |obs.merkleRoots| => (obs.merkleRoots[i].chain, obs.merkleRoots[i]))
  }

  function SeqNumEntries(s: seq<SeqNumChain>): seq<(ChainSelector, SeqNum)> {
    seq(|s|, i requires 0 <= i < |s| => (s[i].chain, s[i].seqNum))
  }

  function RootBallots(aos: seq<AttributedObservation>): seq<Ballot<MerkleRootChain>> {
    seq(|aos|, i requires 0 <= i < |aos| => Ballot(aos[i].oracle, RootEntries(aos[i].obs)))
  }

  function OnRampBallots(aos: seq<AttributedObservation>): seq<Ballot<SeqNum>> {
    seq(|aos|, i requires 0 <= i < |aos| => Ballot(aos[i].oracle, SeqNumEntries(aos[i].obs.onRampMax)))
  }

  function OffRampBallots(aos: seq<AttributedObservation>): seq<Ballot<SeqNum>> {
    seq(|aos|, i requires 0 <= i < |aos| => Ballot(aos[i].oracle, SeqNumEntries(aos[i].obs.offRampNext)))
  }

  function FChainBallots(aos: seq<AttributedObservation>): seq<Ballot<nat>> {
    seq(|aos|, i requires 0 <= i < |aos| => Ballot(aos[i].oracle, MapEntries(aos[i].obs.fChain)))
  }

  // ---------- consensus ----------

  datatype ConsensusObservation = ConsensusObservation(
    merkleRoots: map<ChainSelector, MerkleRootChain>,
    onRampMax: map<ChainSelector, SeqNum>,
    offRampNext: map<ChainSelector, SeqNum>,
    fChain: map<ChainSelector, nat>)

  /** Per chain with at least 2f + 1 values, the f-th smallest; f may depend on the chain. */
  ghost predicate IsOrderedConsensus(bs: seq<Ballot<SeqNum>>, f: MultiThreshold<ChainSelector>,
                                     r: map<ChainSelector, SeqNum>) {
    && (forall c :: c in r <==> f.Get(c).Some? && |Pooled(bs, c)| >= 2 * f.Get(c).value + 1)
    && forall c :: c in r ==> r[c] == Sort(Pooled(bs, c))[f.Get(c).value]
  }

  function TwoFPlus1PerChain(fChain: map<ChainSelector, nat>): MultiThreshold<ChainSelector> {
    PerKey(map c | c in fChain :: TwoFPlus1(fChain[c]))
  }

  /** Chains whose agreed f is zero get no on-ramp consensus. */
  function PositiveOnly(fChain: map<ChainSelector, nat>): map<ChainSelector, nat> {
    map c | c in fChain && fChain[c] > 0 :: fChain[c]
  }

  /** fChain is the agreed f of every chain: at least 2F + 1 oracles name it. */
  ghost predicate IsFChain(cfg: Config, aos: seq<AttributedObservation>, fChain: map<ChainSelector, nat>) {
    IsAgreement(FChainBallots(aos), ConstantThreshold(TwoFPlus1(cfg.f)), fChain)
  }

  /** cons is what the observations agree on; nothing but f without an f for the destination. */
  ghost predicate IsConsensus(cfg: Config, aos: seq<AttributedObservation>, cons: ConsensusObservation) {
    && IsFChain(cfg, aos, cons.fChain)
    && if cfg.dest !in cons.fChain then cons == ConsensusObservation(map[], map[], map[], cons.fChain)
       else
         && IsAgreement(RootBallots(aos), TwoFPlus1PerChain(cons.fChain), cons.merkleRoots)
         && IsOrderedConsensus(OnRampBallots(aos), PerKey(PositiveOnly(cons.fChain)), cons.onRampMax)
         && IsOrderedConsensus(OffRampBallots(aos), ConstantThreshold(cons.fChain[cfg.dest]), cons.offRampNext)
  }

  method GetConsensusObservation(cfg: Config, aos: seq<AttributedObservation>) returns (cons: ConsensusObservation)
    ensures IsConsensus(cfg, aos, cons)
  {
    var fChain := AgreePerChain(FChainBallots(aos), ConstantThreshold(TwoFPlus1(cfg.f)));
    if cfg.dest !in fChain {
      return ConsensusObservation(map[], map[], map[], fChain);
    }
    var roots := AgreePerChain(RootBallots(aos), TwoFPlus1PerChain(fChain));
    var onRamp := OnRampMaxSeqNumsConsensus(OnRampBallots(aos), fChain);
    var offRamp := OffRampNextSeqNumsConsensus(OffRampBallots(aos), fChain[cfg.dest]);
    cons := ConsensusObservation(roots, onRamp, offRamp, fChain);
  }

  lemma OrderedFromPool(bs: seq<Ballot<SeqNum>>, pool: map<ChainSelector, seq<SeqNum>>,
                        f: MultiThreshold<ChainSelector>, r: map<ChainSelector, SeqNum>)
    requires IsPool(bs, pool)
    requires forall c :: c in r <==> c in pool && f.Get(c).Some? && |pool[c]| >= 2 * f.Get(c).value + 1
    requires forall c :: c in r ==> r[c] == Sort(pool[c])[f.Get(c).value]
    ensures IsOrderedConsensus(bs, f, r)
  {
    forall c
      ensures c in r <==> f.Get(c).Some? && |Pooled(bs, c)| >= 2 * f.Get(c).value + 1
      ensures c in r ==> r[c] == Sort(Pooled(bs, c))[f.Get(c).value]
    {
      assert Listed(pool, c) == Pooled(bs, c);
    }
  }

  /** The on-ramp numbers are agreed with each source chain's own f. */
  method OnRampMaxSeqNumsConsensus(bs: seq<Ballot<SeqNum>>, fChain: map<ChainSelector, nat>)
    returns (r: map<ChainSelector, SeqNum>)
    ensures IsOrderedConsensus(bs, PerKey(PositiveOnly(fChain)), r)
  {
    var pool := Aggregate(bs);
    r := GetOrderedConsensus(pool, fChain);
    OrderedFromPool(bs, pool, PerKey(PositiveOnly(fChain)), r);
  }

  /** The off-ramp numbers are read from the destination, so its f counts for every source chain. */
  method OffRampNextSeqNumsConsensus(bs: seq<Ballot<SeqNum>>, fDest: nat)
    returns (r: map<ChainSelector, SeqNum>)
    ensures IsOrderedConsensus(bs, ConstantThreshold(fDest), r)
  {
    var observations := Aggregate(bs);
    r := map[];
    var rest := observations.Keys;
    while rest != {}
      invariant rest <= observations.Keys
      invariant forall c :: c in r <==> c in observations && c !in rest && |observations[c]| >= 2 * fDest + 1
      invariant forall c :: c in r ==> r[c] == Sort(observations[c])[fDest]
    {
      var c :| c in rest;
      rest := rest - {c};
      if |observations[c]| < 2 * fDest + 1 {
        continue;
      }
      r := r[c := Sort(observations[c])[fDest]];
    }
    OrderedFromPool(bs, observations, ConstantThreshold(fDest), r);
  }

  lemma OrderedConsensusUnique(bs: seq<Ballot<SeqNum>>, f: MultiThreshold<ChainSelector>,
                               a: map<ChainSelector, SeqNum>, b: map<ChainSelector, SeqNum>)
    requires IsOrderedConsensus(bs, f, a) && IsOrderedConsensus(bs, f, b)
    ensures a == b
  {
    assert forall c :: c in a <==> c in b;
    assert forall c :: c in a ==> a[c] == b[c];
  }

  // ---------- selecting ranges ----------

  ghost predicate RangesAscend(s: seq<ChainRange>) {
    forall i, j :: 0 <= i < j < |s| ==> s[i].chain < s[j].chain
  }

  ghost predicate RootsAscend(s: seq<MerkleRootChain>) {
    forall i, j :: 0 <= i < j < |s| ==> s[i].chain < s[j].chain
  }

  ghost predicate SeqNumsAscend(s: seq<SeqNumChain>) {
    forall i, j :: 0 <= i < j < |s| ==> s[i].chain < s[j].chain
  }

  /** Chain c has messages the off-ramp does not know yet. */
  ghost predicate HasNew(cons: ConsensusObservation, c: ChainSelector) {
    c in cons.offRampNext && c in cons.onRampMax && cons.offRampNext[c] <= cons.onRampMax[c]
  }

  /** The range proposed for a chain with new messages. */
  ghost function NewRange(cons: ConsensusObservation, maxTreeSize: nat, c: ChainSelector): SeqNumRange
    requires HasNew(cons, c)
  {
    SeqNumRange(cons.offRampNext[c], cons.onRampMax[c]).Limit(maxTreeSize)
  }

  /** One range per chain with new messages and one number per chain known to the off-ramp, by chain. */
  ghost predicate IsRangesOutcome(cons: ConsensusObservation, maxTreeSize: nat, out: Outcome) {
    if forall c :: c in cons.offRampNext ==> !HasNew(cons, c) then out == OfKind(ReportEmpty)
    else
      && out.kind == ReportIntervalsSelected && out.roots == [] && out.attempts == 0
      && RangesAscend(out.ranges)
      && (forall r :: r in out.ranges <==> HasNew(cons, r.chain) && r.range == NewRange(cons, maxTreeSize, r.chain))
      && SeqNumsAscend(out.offRampNext)
      && (forall s :: s in out.offRampNext <==> s.chain in cons.offRampNext && s.seqNum == cons.offRampNext[s.chain])
  }

  method ReportRangesOutcome(cons: ConsensusObservation, maxTreeSize: nat) returns (out: Outcome)
    ensures IsRangesOutcome(cons, maxTreeSize, out)
  {
    var ranges: seq<ChainRange> := [];
    var nexts: seq<SeqNumChain> := [];
    var rest := cons.offRampNext.Keys;
    while rest != {}
      invariant rest <= cons.offRampNext.Keys
      invariant forall s :: s in nexts <==>
                  s.chain in cons.offRampNext && s.chain !in rest && s.seqNum == cons.offRampNext[s.chain]
      invariant forall i, j :: 0 <= i < j < |nexts| ==> nexts[i].chain != nexts[j].chain
      invariant forall r :: r in ranges <==>
                  HasNew(cons, r.chain) && r.chain !in rest && r.range == NewRange(cons, maxTreeSize, r.chain)
      invariant forall i, j :: 0 <= i < j < |ranges| ==> ranges[i].chain != ranges[j].chain
    {
      var c :| c in rest;
      rest := rest - {c};
      assert forall i :: 0 <= i < |nexts| ==> nexts[i] in nexts;
      assert forall i :: 0 <= i < |ranges| ==> ranges[i] in ranges;
      nexts := nexts + [SeqNumChain(c, cons.offRampNext[c])];
      if c in cons.onRampMax && cons.offRampNext[c] <= cons.onRampMax[c] {
        var range := SeqNumRange(cons.offRampNext[c], cons.onRampMax[c]);
        ranges := ranges + [ChainRange(c, range.Limit(maxTreeSize))];
      }
    }
    if ranges == [] {
      out := OfKind(ReportEmpty);
      forall c | c in cons.offRampNext
        ensures !HasNew(cons, c)
      {
        assert HasNew(cons, c) ==> ChainRange(c, NewRange(cons, maxTreeSize, c)) in ranges;
      }
    } else {
      assert ranges[0] in ranges;
      SortByDistinct(ranges, (r: ChainRange) => r.chain as int);
      SortByMembers(ranges, (r: ChainRange) => r.chain as int);
      SortByDistinct(nexts, (s: SeqNumChain) => s.chain as int);
      SortByMembers(nexts, (s: SeqNumChain) => s.chain as int);
      out := Outcome(ReportIntervalsSelected, SortBy(ranges, (r: ChainRange) => r.chain as int), [],
                     SortBy(nexts, (s: SeqNumChain) => s.chain as int), 0);
      AscendingRanges(out.ranges);
      AscendingSeqNums(out.offRampNext);
    }
  }

  lemma AscendingRanges(s: seq<ChainRange>)
    ensures AscendingBy(s, (r: ChainRange) => r.chain as int) <==> RangesAscend(s)
  {
  }

  lemma AscendingSeqNums(s: seq<SeqNumChain>)
    ensures AscendingBy(s, (s: SeqNumChain) => s.chain as int) <==> SeqNumsAscend(s)
  {
  }

  lemma AscendingRoots(s: seq<MerkleRootChain>)
    ensures AscendingBy(s, (r: MerkleRootChain) => r.chain as int) <==> RootsAscend(s)
  {
  }

  // ---------- building the report ----------

  /** The agreed roots by chain, and the off-ramp numbers carried over. */
  ghost predicate IsRootsOutcome(cons: ConsensusObservation, prev: Outcome, out: Outcome) {
    && out.kind == (if |cons.merkleRoots| == 0 then ReportEmpty else ReportGenerated)
    && out.ranges == [] && out.attempts == 0
    && out.offRampNext == prev.offRampNext
    && RootsAscend(out.roots)
    && forall r :: r in out.roots <==> r.chain in cons.merkleRoots && cons.merkleRoots[r.chain] == r
  }

  method BuildMerkleRootsOutcome(cons: ConsensusObservation, prev: Outcome) returns (out: Outcome)
    requires forall c :: c in cons.merkleRoots ==> cons.merkleRoots[c].chain == c
    ensures IsRootsOutcome(cons, prev, out)
  {
    var roots: seq<MerkleRootChain> := [];
    var rest := cons.merkleRoots.Keys;
    while rest != {}
      invariant rest <= cons.merkleRoots.Keys
      invariant forall r :: r in roots <==>
                  r.chain in cons.merkleRoots && r.chain !in rest && cons.merkleRoots[r.chain] == r
      invariant forall i, j :: 0 <= i < j < |roots| ==> roots[i].chain != roots[j].chain
    {
      var c :| c in rest;
      rest := rest - {c};
      assert forall i :: 0 <= i < |roots| ==> roots[i] in roots;
      roots := roots + [cons.merkleRoots[c]];
    }
    assert forall c :: c in cons.merkleRoots ==> cons.merkleRoots[c] in roots;
    assert roots != [] ==> roots[0] in roots && roots[0].chain in cons.merkleRoots.Keys;
    assert roots == [] <==> cons.merkleRoots.Keys == {};
    SortByDistinct(roots, (r: MerkleRootChain) => r.chain as int);
    SortByMembers(roots, (r: MerkleRootChain) => r.chain as int);
    out := Outcome(if roots == [] then ReportEmpty else ReportGenerated, [],
                   SortBy(roots, (r: MerkleRootChain) => r.chain as int), prev.offRampNext, 0);
    AscendingRoots(out.roots);
  }

  // ---------- waiting for transmission ----------

  /** The i-th off-ramp number recorded in the previous outcome has been overtaken. */
  predicate Overtaken(prev: Outcome, cons: ConsensusObservation, i: nat)
    requires i < |prev.offRampNext|
  {
    var recorded := prev.offRampNext[i];
    recorded.chain in cons.offRampNext && recorded.seqNum < cons.offRampNext[recorded.chain]
  }

  /** A number recorded for chain c has been overtaken. */
  ghost predicate Advanced(prev: Outcome, cons: ConsensusObservation, c: ChainSelector) {
    exists i :: 0 <= i < |prev.offRampNext| && prev.offRampNext[i].chain == c && Overtaken(prev, cons, i)
  }

  /** With several reports every pending chain must have advanced; with one, any advance will do. */
  ghost predicate Transmitted(multipleReports: bool, prev: Outcome, cons: ConsensusObservation) {
    if multipleReports then forall i :: 0 <= i < |prev.roots| ==> Advanced(prev, cons, prev.roots[i].chain)
    else prev.roots == [] || exists c :: Advanced(prev, cons, c)
  }

  /** The next round decodes the number of attempts from 32 bits. */
  function Counted(attempts: nat): nat {
    attempts % UINT32_MODULUS
  }

  ghost function TransmissionOutcome(cfg: Config, prev: Outcome, cons: ConsensusObservation): Outcome {
    if Transmitted(cfg.multipleReports, prev, cons) then OfKind(ReportTransmitted)
    else if prev.attempts + 1 >= cfg.maxAttempts then OfKind(ReportTransmissionFailed)
    else Outcome(ReportInFlight, [], prev.roots, prev.offRampNext, Counted(prev.attempts + 1))
  }

  method CheckForReportTransmission(cfg: Config, prev: Outcome, cons: ConsensusObservation) returns (out: Outcome)
    ensures out == TransmissionOutcome(cfg, prev, cons)
  {
    var pending := set i | 0 <= i < |prev.roots| :: prev.roots[i].chain;
    ghost var all := pending;
    for i := 0 to |prev.offRampNext|
      invariant !cfg.multipleReports ==> pending == all && forall j :: 0 <= j < i ==> !Overtaken(prev, cons, j)
      invariant cfg.multipleReports ==> forall c :: c in pending <==>
                  c in all && forall j :: 0 <= j < i && prev.offRampNext[j].chain == c ==> !Overtaken(prev, cons, j)
    {
      if Overtaken(prev, cons, i) {
        if !cfg.multipleReports {
          assert Advanced(prev, cons, prev.offRampNext[i].chain);
          return OfKind(ReportTransmitted);
        }
        pending := pending - {prev.offRampNext[i].chain};
      }
    }
    assert forall i :: 0 <= i < |prev.roots| ==> prev.roots[i].chain in all;
    if pending == {} {
      forall i | 0 <= i < |prev.roots|
        ensures cfg.multipleReports ==> Advanced(prev, cons, prev.roots[i].chain)
      {
        assert prev.roots[i].chain !in pending;
      }
      assert |prev.roots| > 0 ==> prev.roots[0].chain in all;
      return OfKind(ReportTransmitted);
    }
    if prev.attempts + 1 >= cfg.maxAttempts {
      return OfKind(ReportTransmissionFailed);
    }
    out := Outcome(ReportInFlight, [], prev.roots, prev.offRampNext, Counted(prev.attempts + 1));
  }

  // ---------- one round ----------

  /** What a round makes of the previous outcome once the observations agree on cons. */
  ghost predicate StepOn(cfg: Config, prev: Outcome, cons: ConsensusObservation, out: Outcome) {
    match NextState(prev)
    case SelectingRanges => IsRangesOutcome(cons, cfg.maxTreeSize, out)
    case BuildingReport => IsRootsOutcome(cons, prev, out)
    case WaitingForTransmission => out == TransmissionOutcome(cfg, prev, cons)
  }

  /** One round. Without agreement on the destination's f the outcome is empty. */
  ghost predicate Step(cfg: Config, prev: Outcome, aos: seq<AttributedObservation>, out: Outcome) {
    exists cons :: IsConsensus(cfg, aos, cons)
                   && if cfg.dest in cons.fChain then StepOn(cfg, prev, cons, out) else out == OfKind(Unset)
  }

  /** A round with an outcome had agreement. */
  lemma StepHasConsensus(cfg: Config, prev: Outcome, aos: seq<AttributedObservation>, out: Outcome)
    returns (cons: ConsensusObservation)
    requires Step(cfg, prev, aos, out) && out.kind != Unset
    ensures IsConsensus(cfg, aos, cons) && cfg.dest in cons.fChain && StepOn(cfg, prev, cons, out)
  {
    cons :| IsConsensus(cfg, aos, cons)
            && if cfg.dest in cons.fChain then StepOn(cfg, prev, cons, out) else out == OfKind(Unset);
  }

  method GetOutcome(cfg: Config, prev: Outcome, aos: seq<AttributedObservation>) returns (out: Outcome)
    ensures Step(cfg, prev, aos, out)
  {
    var cons := GetConsensusObservation(cfg, aos);
    if cfg.dest !in cons.fChain {
      return OfKind(Unset);
    }
    match NextState(prev)
    case SelectingRanges => out := ReportRangesOutcome(cons, cfg.maxTreeSize);
    case BuildingReport =>
      forall c | c in cons.merkleRoots {
        RootsKeyedByChain(cfg, aos, cons, c);
      }
      out := BuildMerkleRootsOutcome(cons, prev);
    case WaitingForTransmission => out := CheckForReportTransmission(cfg, prev, cons);
    assert StepOn(cfg, prev, cons, out);
  }

  /** A pooled value comes from a ballot. */
  lemma {:induction false} PooledFrom<V>(bs: seq<Ballot<V>>, c: ChainSelector, v: V)
    requires v in Pooled(bs, c)
    ensures exists i, k :: 0 <= i < |bs| && 0 <= k < |bs[i].entries| && bs[i].entries[k] == (c, v)
  {
    var front, last := bs[..|bs| - 1], bs[|bs| - 1];
    if v in Pooled(front, c) {
      PooledFrom(front, c, v);
      var i, k :| 0 <= i < |front| && 0 <= k < |front[i].entries| && front[i].entries[k] == (c, v);
      assert bs[i].entries[k] == (c, v);
    } else {
      CastFrom(last.entries, c, v);
      var k :| 0 <= k < |last.entries| && last.entries[k] == (c, v);
      assert bs[|bs| - 1].entries[k] == (c, v);
    }
  }

  lemma {:induction false} CastFrom<V>(entries: seq<(ChainSelector, V)>, c: ChainSelector, v: V)
    requires v in Cast(entries, c)
    ensures exists k :: 0 <= k < |entries| && entries[k] == (c, v)
  {
    var front, last := entries[..|entries| - 1], entries[|entries| - 1];
    if v in Cast(front, c) {
      CastFrom(front, c, v);
      var k :| 0 <= k < |front| && front[k] == (c, v);
      assert entries[k] == (c, v);
    } else {
      assert last == (c, v);
    }
  }

  lemma RootEntryChain(aos: seq<AttributedObservation>, i: nat, k: nat)
    requires i < |aos| && k < |RootBallots(aos)[i].entries|
    ensures RootBallots(aos)[i].entries[k].0 == RootBallots(aos)[i].entries[k].1.chain
  {
  }

  lemma RootsKeyedByChain(cfg: Config, aos: seq<AttributedObservation>, cons: ConsensusObservation, c: ChainSelector)
    requires IsConsensus(cfg, aos, cons) && c in cons.merkleRoots
    ensures cons.merkleRoots[c].chain == c
  {
    var bs := RootBallots(aos);
    PooledFrom(bs, c, cons.merkleRoots[c]);
    var i, k :| 0 <= i < |bs| && 0 <= k < |bs[i].entries| && bs[i].entries[k] == (c, cons.merkleRoots[c]);
    RootEntryChain(aos, i, k);
  }

  // ---------- every oracle computes the same outcome ----------

  lemma ConsensusUnique(cfg: Config, aos: seq<AttributedObservation>, a: ConsensusObservation, b: ConsensusObservation)
    requires IsConsensus(cfg, aos, a) && IsConsensus(cfg, aos, b)
    ensures a == b
  {
    AgreementUnique(FChainBallots(aos), ConstantThreshold(TwoFPlus1(cfg.f)), a.fChain, b.fChain);
    if cfg.dest in a.fChain {
      AgreedPartsUnique(cfg, aos, a, b);
    }
  }

  lemma AgreedPartsUnique(cfg: Config, aos: seq<AttributedObservation>, a: ConsensusObservation,
                          b: ConsensusObservation)
    requires IsConsensus(cfg, aos, a) && IsConsensus(cfg, aos, b)
    requires a.fChain == b.fChain && cfg.dest in a.fChain
    ensures a == b
  {
    AgreementUnique(RootBallots(aos), TwoFPlus1PerChain(a.fChain), a.merkleRoots, b.merkleRoots);
    OrderedConsensusUnique(OnRampBallots(aos), PerKey(PositiveOnly(a.fChain)), a.onRampMax, b.onRampMax);
    OrderedConsensusUnique(OffRampBallots(aos), ConstantThreshold(a.fChain[cfg.dest]), a.offRampNext, b.offRampNext);
  }

  lemma RangesOutcomeUnique(cons: ConsensusObservation, maxTreeSize: nat, a: Outcome, b: Outcome)
    requires IsRangesOutcome(cons, maxTreeSize, a) && IsRangesOutcome(cons, maxTreeSize, b)
    ensures a == b
  {
    if a.kind == ReportIntervalsSelected && b.kind == ReportIntervalsSelected {
      AscendingRanges(a.ranges);
      AscendingRanges(b.ranges);
      assert forall i :: 0 <= i < |a.ranges| ==> a.ranges[i] in a.ranges;
      assert forall i :: 0 <= i < |b.ranges| ==> b.ranges[i] in b.ranges;
      AscendingByUnique(a.ranges, b.ranges, (r: ChainRange) => r.chain as int);
      AscendingSeqNums(a.offRampNext);
      AscendingSeqNums(b.offRampNext);
      assert forall i :: 0 <= i < |a.offRampNext| ==> a.offRampNext[i] in a.offRampNext;
      assert forall i :: 0 <= i < |b.offRampNext| ==> b.offRampNext[i] in b.offRampNext;
      AscendingByUnique(a.offRampNext, b.offRampNext, (s: SeqNumChain) => s.chain as int);
    }
  }

  lemma RootsOutcomeUnique(cons: ConsensusObservation, prev: Outcome, a: Outcome, b: Outcome)
    requires IsRootsOutcome(cons, prev, a) && IsRootsOutcome(cons, prev, b)
    ensures a == b
  {
    AscendingRoots(a.roots);
    AscendingRoots(b.roots);
    assert forall i :: 0 <= i < |a.roots| ==> a.roots[i] in a.roots;
    assert forall i :: 0 <= i < |b.roots| ==> b.roots[i] in b.roots;
    AscendingByUnique(a.roots, b.roots, (r: MerkleRootChain) => r.chain as int);
  }

  /** Whatever order the maps are walked in, the previous outcome and the observations determine
      the next outcome: oracles that process the same round cannot disagree. */
  lemma StepDeterministic(cfg: Config, prev: Outcome, aos: seq<AttributedObservation>, a: Outcome, b: Outcome)
    requires Step(cfg, prev, aos, a) && Step(cfg, prev, aos, b)
    ensures a == b
  {
    var ca :| IsConsensus(cfg, aos, ca)
              && if cfg.dest in ca.fChain then StepOn(cfg, prev, ca, a) else a == OfKind(Unset);
    var cb :| IsConsensus(cfg, aos, cb)
              && if cfg.dest in cb.fChain then StepOn(cfg, prev, cb, b) else b == OfKind(Unset);
    ConsensusUnique(cfg, aos, ca, cb);
    if cfg.dest in ca.fChain {
      StepOnUnique(cfg, prev, ca, a, b);
    }
  }

  lemma StepOnUnique(cfg: Config, prev: Outcome, cons: ConsensusObservation, a: Outcome, b: Outcome)
    requires StepOn(cfg, prev, cons, a) && StepOn(cfg, prev, cons, b)
    ensures a == b
  {
    match NextState(prev)
    case SelectingRanges => RangesOutcomeUnique(cons, cfg.maxTreeSize, a, b);
    case BuildingReport => RootsOutcomeUnique(cons, prev, a, b);
    case WaitingForTransmission =>
  }
}
