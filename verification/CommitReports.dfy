/** Acceptance of commit reports against the off-ramp, and what the accepted reports add up to. */
module CommitReports {
  import opened CcipTypes
  import opened MerkleRoot

  /** The merkle roots of a report. */
  datatype Report = Report(blessed: seq<MerkleRootChain>, unblessed: seq<MerkleRootChain>) {
    function Roots(): seq<MerkleRootChain> { blessed + unblessed }
  }

  /** The answers that acceptance depends on beside the report itself: whether report and report info
      decode and the report is not empty, and what is read about curses, the destination, the config
      digest, the latest price round on chain and the next expected numbers. A read may fail. */
  datatype Answers = Answers(decoded: bool, cursed: Option<bool>, supportsDest: Option<bool>,
                             digestMatches: Option<bool>, latestPriceSeqNr: Option<nat>, nextSeqNumsRead: bool) {
    ghost predicate Favourable() {
      decoded && cursed == Some(false) && supportsDest == Some(true) && digestMatches == Some(true)
    }
  }

  /** A report as it reaches the acceptance checks of an OCR round; there may be none at all. */
  datatype Submission = Submission(report: Option<Report>, ocrSeqNr: nat, answers: Answers) {
    function Roots(): seq<MerkleRootChain> {
      if report.Some? then report.value.Roots() else []
    }
  }

  /** The off-ramp's next expected number per enabled source chain. */
  type OffRamp = map<ChainSelector, SeqNum>

  // ---------- acceptance checks ----------

  ghost predicate WellFormedRoot(r: MerkleRootChain) {
    r.root != EMPTY_BYTES32 && r.range.start <= r.range.end
  }

  ghost predicate WellFormed(roots: seq<MerkleRootChain>) {
    forall i :: 0 <= i < |roots| ==> WellFormedRoot(roots[i])
  }

  ghost predicate DistinctRootChains(roots: seq<MerkleRootChain>) {
    forall i, j :: 0 <= i < j < |roots| ==> roots[i].chain != roots[j].chain
  }

  /** Every root starts where the off-ramp expects its chain to go on. */
  ghost predicate StartsAtNext(roots: seq<MerkleRootChain>, offRamp: OffRamp) {
    forall i :: 0 <= i < |roots| ==> roots[i].chain in offRamp && roots[i].range.start == offRamp[roots[i].chain]
  }

  /** Both reads succeed where they are made; a report without roots is for a newer round than the latest
      price round, and roots continue where the off-ramp stands, one per chain. */
  ghost predicate Fresh(s: Submission, offRamp: OffRamp) {
    && s.answers.latestPriceSeqNr.Some?
    && if s.Roots() == [] then s.ocrSeqNr > s.answers.latestPriceSeqNr.value
       else s.answers.nextSeqNumsRead && DistinctRootChains(s.Roots()) && StartsAtNext(s.Roots(), offRamp)
  }

  /** A missing report is let through; it commits nothing. */
  ghost predicate Acceptable(s: Submission, offRamp: OffRamp) {
    s.report.None? || (s.answers.Favourable() && WellFormed(s.Roots()) && Fresh(s, offRamp))
  }

  method ValidateRoots(roots: seq<MerkleRootChain>) returns (ok: bool)
    ensures ok <==> WellFormed(roots)
  {
    for i := 0 to |roots|
      invariant WellFormed(roots[..i])
    {
      if roots[i].root == EMPTY_BYTES32 || roots[i].range.start > roots[i].range.end {
        return false;
      }
    }
    assert roots[..|roots|] == roots;
    return true;
  }

  lemma WellFormedParts(a: seq<MerkleRootChain>, b: seq<MerkleRootChain>)
    ensures WellFormed(a + b) <==> WellFormed(a) && WellFormed(b)
  {
    assert forall i :: 0 <= i < |a| ==> (a + b)[i] == a[i];
    assert forall i :: 0 <= i < |b| ==> (a + b)[|a| + i] == b[i];
  }

  /** isStaleReport, negated: true when no error is returned. */
  method IsFresh(s: Submission, offRamp: OffRamp) returns (ok: bool)
    ensures ok <==> Fresh(s, offRamp)
  {
    var roots := s.Roots();
    if s.answers.latestPriceSeqNr.None? {
      return false;
    }
    if s.ocrSeqNr <= s.answers.latestPriceSeqNr.value && roots == [] {
      return false;
    }
    if roots == [] {
      return true;
    }
    var chainSet: set<ChainSelector> := {};
    var newNext: map<ChainSelector, SeqNum> := map[];
    for i := 0 to |roots|
      invariant chainSet == newNext.Keys
      invariant DistinctRootChains(roots[..i])
      invariant forall k :: 0 <= k < i ==> roots[k].chain in newNext && newNext[roots[k].chain] == roots[k].range.start
      invariant forall c :: c in newNext ==> exists k :: 0 <= k < i && roots[k].chain == c
    {
      if roots[i].chain in chainSet {
        return false;
      }
      chainSet := chainSet + {roots[i].chain};
      newNext := newNext[roots[i].chain := roots[i].range.start];
    }
    assert roots[..|roots|] == roots;
    if !s.answers.nextSeqNumsRead {
      return false;
    }
    var rest := newNext.Keys;
    while rest != {}
      invariant rest <= newNext.Keys
      invariant forall c :: c in newNext && c !in rest ==> c in offRamp && newNext[c] == offRamp[c]
    {
      var c :| c in rest;
      rest := rest - {c};
      if c !in offRamp || newNext[c] != offRamp[c] {
        return false;
      }
    }
    return true;
  }

  method ValidateReport(s: Submission, offRamp: OffRamp) returns (ok: bool)
    ensures ok <==> Acceptable(s, offRamp)
  {
    if s.report.None? {
      return true;
    }
    if !s.answers.decoded {
      return false;
    }
    var blessed := ValidateRoots(s.report.value.blessed);
    var unblessed := ValidateRoots(s.report.value.unblessed);
    WellFormedParts(s.report.value.blessed, s.report.value.unblessed);
    if !blessed || !unblessed {
      return false;
    }
    if s.answers.cursed != Some(false) || s.answers.supportsDest != Some(true)
      || s.answers.digestMatches != Some(true) {
      return false;
    }
    ok := IsFresh(s, offRamp);
  }

  // ---------- the off-ramp ----------

  /** The contract's counters are checked 64-bit integers: a root that ends at the last number is rejected. */
  ghost predicate Applicable(roots: seq<MerkleRootChain>) {
    forall i :: 0 <= i < |roots| ==> roots[i].range.end < MAX_SEQ_NUM
  }

  /** Each root advances its chain's counter to the number after its range. */
  ghost function Apply(roots: seq<MerkleRootChain>, offRamp: OffRamp): OffRamp
    requires Applicable(roots)
  {
    if roots == [] then offRamp
    else
      var front, last := roots[..|roots| - 1], roots[|roots| - 1];
      Apply(front, offRamp)[last.chain := last.range.end + 1]
  }

  ghost predicate Applied(s: Submission, offRamp: OffRamp) {
    Acceptable(s, offRamp) && Applicable(s.Roots())
  }

  ghost function AfterOne(s: Submission, offRamp: OffRamp): OffRamp {
    if Applied(s, offRamp) then Apply(s.Roots(), offRamp) else offRamp
  }

  /** The off-ramp after a history of submissions, of which only the acceptable ones take effect. */
  ghost function After(history: seq<Submission>, initial: OffRamp): OffRamp {
    if history == [] then initial
    else AfterOne(history[|history| - 1], After(history[..|history| - 1], initial))
  }

  /** The ranges of chain c in a list of roots. */
  ghost function RangesOf(roots: seq<MerkleRootChain>, c: ChainSelector): seq<SeqNumRange> {
    if roots == [] then []
    else RangesOf(roots[..|roots| - 1], c) +
         if roots[|roots| - 1].chain == c then [roots[|roots| - 1].range] else []
  }

  /** The ranges of chain c that a history committed, oldest first. */
  ghost function Committed(history: seq<Submission>, initial: OffRamp, c: ChainSelector): seq<SeqNumRange> {
    if history == [] then []
    else
      var front, last := history[..|history| - 1], history[|history| - 1];
      Committed(front, initial, c) +
      if Applied(last, After(front, initial)) then RangesOf(last.Roots(), c) else []
  }

  // ---------- tiling ----------

  /** The ranges follow one another without gap or overlap from the number from up to, excluding, to. */
  ghost predicate Tiles(ranges: seq<SeqNumRange>, from: int, to: int) {
    if ranges == [] then from == to
    else
      var last := ranges[|ranges| - 1];
      last.start <= last.end && last.end + 1 == to && Tiles(ranges[..|ranges| - 1], from, last.start)
  }

  /** Of a report with distinct chains, a chain gets at most one range. */
  lemma {:induction false} OneRangePerChain(roots: seq<MerkleRootChain>, offRamp: OffRamp, c: ChainSelector)
    requires DistinctRootChains(roots) && StartsAtNext(roots, offRamp) && WellFormed(roots) && Applicable(roots)
    requires c in offRamp
    ensures c in Apply(roots, offRamp)
    ensures RangesOf(roots, c) == [] ==> Apply(roots, offRamp)[c] == offRamp[c]
    ensures RangesOf(roots, c) == [] ==> forall i :: 0 <= i < |roots| ==> roots[i].chain != c
    ensures RangesOf(roots, c) != [] ==>
              |RangesOf(roots, c)| == 1 && Tiles(RangesOf(roots, c), offRamp[c], Apply(roots, offRamp)[c])
  {
    if roots != [] {
      var front, last := roots[..|roots| - 1], roots[|roots| - 1];
      OneRangePerChain(front, offRamp, c);
      if last.chain == c {
        assert RangesOf(front, c) == [] by {
          if RangesOf(front, c) != [] {
            RangeHasRoot(front, c);
          }
        }
        assert RangesOf(roots, c) == [last.range];
      }
    }
  }

  lemma {:induction false} RangeHasRoot(roots: seq<MerkleRootChain>, c: ChainSelector)
    requires RangesOf(roots, c) != []
    ensures exists i :: 0 <= i < |roots| && roots[i].chain == c
  {
    if roots[|roots| - 1].chain != c {
      RangeHasRoot(roots[..|roots| - 1], c);
    }
  }

  lemma TilesExtend(ranges: seq<SeqNumRange>, from: int, mid: int, more: seq<SeqNumRange>, to: int)
    requires Tiles(ranges, from, mid)
    requires |more| == 1 && Tiles(more, mid, to)
    ensures Tiles(ranges + more, from, to)
  {
    assert (ranges + more)[..|ranges|] == ranges;
    assert more[..0] == [];
  }

  /** Whatever is submitted, in whatever order, the committed ranges of every source chain tile the
      numbers from the counter it started with to the counter it has now. */
  lemma {:induction false} CommittedRangesTile(history: seq<Submission>, initial: OffRamp, c: ChainSelector)
    requires c in initial
    ensures c in After(history, initial)
    ensures Tiles(Committed(history, initial, c), initial[c], After(history, initial)[c])
  {
    if history != [] {
      var front, last := history[..|history| - 1], history[|history| - 1];
      CommittedRangesTile(front, initial, c);
      var offRamp := After(front, initial);
      if Applied(last, offRamp) && last.Roots() != [] {
        var roots := last.Roots();
        OneRangePerChain(roots, offRamp, c);
        if RangesOf(roots, c) != [] {
          TilesExtend(Committed(front, initial, c), initial[c], offRamp[c], RangesOf(roots, c),
                      Apply(roots, offRamp)[c]);
        } else {
          assert Committed(history, initial, c) == Committed(front, initial, c);
        }
      } else {
        assert Committed(history, initial, c) == Committed(front, initial, c);
      }
    }
  }

  /** Range i contains n. */
  ghost predicate Holds(ranges: seq<SeqNumRange>, i: int, n: SeqNum) {
    0 <= i < |ranges| && ranges[i].Contains(n)
  }

  /** Tiles cover each number between their ends exactly once, and no other. */
  lemma {:induction false} TilesCoverOnce(ranges: seq<SeqNumRange>, from: int, to: int, n: SeqNum)
    requires Tiles(ranges, from, to)
    ensures from <= to
    ensures from <= n < to <==> exists i :: Holds(ranges, i, n)
    ensures forall i, j :: Holds(ranges, i, n) && Holds(ranges, j, n) ==> i == j
  {
    if ranges != [] {
      var front, last := ranges[..|ranges| - 1], ranges[|ranges| - 1];
      TilesCoverOnce(front, from, last.start, n);
      assert forall i :: 0 <= i < |front| ==> (Holds(front, i, n) <==> Holds(ranges, i, n));
      if last.Contains(n) {
        assert Holds(ranges, |front|, n);
      }
      if from <= n < last.start {
        var i :| Holds(front, i, n);
        assert Holds(ranges, i, n);
      }
    }
  }

  /** A message number is committed exactly once if it lies between the initial and the current
      counter of its chain, and never otherwise. */
  lemma CommittedExactlyOnce(history: seq<Submission>, initial: OffRamp, c: ChainSelector, n: SeqNum,
                             committed: seq<SeqNumRange>, now: OffRamp)
    requires c in initial
    requires committed == Committed(history, initial, c) && now == After(history, initial)
    ensures c in now
    ensures initial[c] <= n < now[c] <==> exists i :: Holds(committed, i, n)
    ensures forall i, j :: Holds(committed, i, n) && Holds(committed, j, n) ==> i == j
  {
    CommittedRangesTile(history, initial, c);
    TilesCoverOnce(committed, initial[c], now[c], n);
  }
}
