/** What acceptance of a commit report asks for and what applying it changes, root by root. */
module CommitAcceptance {
  import opened CcipTypes
  import opened MerkleRoot
  import opened CommitReports

  /** r is one of the report's roots, blessed or not. */
  ghost predicate HasRoot(report: Report, r: MerkleRootChain) {
    r in report.blessed || r in report.unblessed
  }

  /** No chain has two roots, in one list or in both. */
  ghost predicate OneRootPerChain(report: Report) {
    && (forall i, j :: 0 <= i < j < |report.blessed| ==> report.blessed[i].chain != report.blessed[j].chain)
    && (forall i, j :: 0 <= i < j < |report.unblessed| ==> report.unblessed[i].chain != report.unblessed[j].chain)
    && forall i, j :: 0 <= i < |report.blessed| && 0 <= j < |report.unblessed| ==>
         report.blessed[i].chain != report.unblessed[j].chain
  }

  lemma RootsOf(report: Report, roots: seq<MerkleRootChain>)
    requires roots == report.Roots()
    ensures forall r :: r in roots <==> HasRoot(report, r)
    ensures roots == [] <==> report.blessed == [] && report.unblessed == []
  {
  }

  lemma RootsApart(report: Report, roots: seq<MerkleRootChain>)
    requires roots == report.Roots()
    ensures DistinctRootChains(roots) <==> OneRootPerChain(report)
  {
    var n := |report.blessed|;
    if OneRootPerChain(report) {
      forall i, j | 0 <= i < j < |roots|
        ensures roots[i].chain != roots[j].chain
      {
        assert roots[i] == if i < n then report.blessed[i] else report.unblessed[i - n];
        assert roots[j] == if j < n then report.blessed[j] else report.unblessed[j - n];
      }
    }
    if DistinctRootChains(roots) {
      PartsApart(report.blessed, report.unblessed);
    }
  }

  lemma PartsApart(a: seq<MerkleRootChain>, b: seq<MerkleRootChain>)
    requires DistinctRootChains(a + b)
    ensures DistinctRootChains(a) && DistinctRootChains(b)
    ensures forall i, j :: 0 <= i < |a| && 0 <= j < |b| ==> a[i].chain != b[j].chain
  {
    var s := a + b;
    forall i, j | 0 <= i < |a| && 0 <= j < |b|
      ensures a[i].chain != b[j].chain
    {
      assert s[i] == a[i] && s[|a| + j] == b[j];
    }
    forall i, j | 0 <= i < j < |b|
      ensures b[i].chain != b[j].chain
    {
      assert s[|a| + i] == b[i] && s[|a| + j] == b[j];
    }
    forall i, j | 0 <= i < j < |a|
      ensures a[i].chain != a[j].chain
    {
      assert s[i] == a[i] && s[j] == a[j];
    }
  }

  /** Everything that is asked of a report that is there. */
  ghost predicate Meets(report: Report, ocrSeqNr: nat, a: Answers, offRamp: OffRamp) {
    && a.decoded && a.cursed == Some(false) && a.supportsDest == Some(true) && a.digestMatches == Some(true)
    && (forall r :: HasRoot(report, r) ==> r.root != EMPTY_BYTES32 && r.range.start <= r.range.end)
    && a.latestPriceSeqNr.Some?
    && (report.blessed == [] && report.unblessed == [] ==> ocrSeqNr > a.latestPriceSeqNr.value)
    && (report.blessed != [] || report.unblessed != [] ==>
          && a.nextSeqNumsRead && OneRootPerChain(report)
          && forall r :: HasRoot(report, r) ==> r.chain in offRamp && offRamp[r.chain] == r.range.start)
  }

  lemma EveryRoot(roots: seq<MerkleRootChain>, offRamp: OffRamp)
    ensures WellFormed(roots) <==> forall r :: r in roots ==> r.root != EMPTY_BYTES32 && r.range.start <= r.range.end
    ensures StartsAtNext(roots, offRamp) <==>
            forall r :: r in roots ==> r.chain in offRamp && offRamp[r.chain] == r.range.start
  {
    assert forall i :: 0 <= i < |roots| ==> roots[i] in roots;
  }

  /** A submission is accepted exactly if it has no report or one that meets all of it. */
  lemma AcceptedExactly(s: Submission, offRamp: OffRamp)
    ensures Acceptable(s, offRamp) <==>
            s.report.None? || Meets(s.report.value, s.ocrSeqNr, s.answers, offRamp)
  {
    if s.report.Some? {
      var report, roots := s.report.value, s.Roots();
      RootsOf(report, roots);
      RootsApart(report, roots);
      EveryRoot(roots, offRamp);
    }
  }

  // ---------- the new counters ----------

  lemma {:induction false} ApplyMoves(roots: seq<MerkleRootChain>, offRamp: OffRamp, c: ChainSelector)
    requires Applicable(roots) && DistinctRootChains(roots)
    ensures forall i :: 0 <= i < |roots| && roots[i].chain == c ==>
              c in Apply(roots, offRamp) && Apply(roots, offRamp)[c] == roots[i].range.end + 1
    ensures (forall i :: 0 <= i < |roots| ==> roots[i].chain != c) ==>
              (c in Apply(roots, offRamp) <==> c in offRamp)
              && (c in offRamp ==> Apply(roots, offRamp)[c] == offRamp[c])
  {
    if roots != [] {
      ApplyMoves(roots[..|roots| - 1], offRamp, c);
    }
  }

  /** A report takes effect exactly if it is accepted and none of its roots ends at the last number. Then
      the counter of every root's chain is the number after its range; all others stay. */
  lemma CountersAfter(s: Submission, offRamp: OffRamp, c: ChainSelector)
    requires s.report.Some?
    ensures var report := s.report.value;
            if && Meets(report, s.ocrSeqNr, s.answers, offRamp)
               && forall r :: HasRoot(report, r) ==> r.range.end < MAX_SEQ_NUM
            then
              && (forall r :: HasRoot(report, r) && r.chain == c ==>
                    c in AfterOne(s, offRamp) && AfterOne(s, offRamp)[c] == r.range.end + 1)
              && ((forall r :: HasRoot(report, r) ==> r.chain != c) ==>
                    (c in AfterOne(s, offRamp) <==> c in offRamp)
                    && (c in offRamp ==> AfterOne(s, offRamp)[c] == offRamp[c]))
            else AfterOne(s, offRamp) == offRamp
  {
    var report, roots := s.report.value, s.Roots();
    AcceptedExactly(s, offRamp);
    RootsOf(report, roots);
    assert forall i :: 0 <= i < |roots| ==> roots[i] in roots;
    if Applied(s, offRamp) {
      if roots != [] {
        RootsApart(report, roots);
        ApplyMoves(roots, offRamp, c);
      }
    }
  }
}
