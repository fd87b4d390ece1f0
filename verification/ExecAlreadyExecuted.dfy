/** The last check before a report is transmitted: is every message of it executed already? */
module ExecAlreadyExecuted {
  import opened CcipTypes
  import opened Sums
  import opened ExecTypes

  datatype ChainReport = ChainReport(source: ChainSelector, messages: seq<Message>)

  // ---------- the spans ----------

  /** range goes from the lowest to the highest number of the messages. */
  ghost predicate IsSpan(messages: seq<Message>, range: SeqNumRange) {
    && (exists i :: 0 <= i < |messages| && messages[i].seqNum == range.start)
    && (exists i :: 0 <= i < |messages| && messages[i].seqNum == range.end)
    && forall i :: 0 <= i < |messages| ==> range.Contains(messages[i].seqNum)
  }

  /** slices.MinFunc and slices.MaxFunc by number. */
  method Span(messages: seq<Message>) returns (range: SeqNumRange)
    requires messages != []
    ensures IsSpan(messages, range)
  {
    var lo, hi := 0, 0;
    for i := 1 to |messages|
      invariant 0 <= lo < |messages| && 0 <= hi < |messages|
      invariant forall k :: 0 <= k < i ==> messages[lo].seqNum <= messages[k].seqNum <= messages[hi].seqNum
    {
      if messages[i].seqNum < messages[lo].seqNum {
        lo := i;
      }
      if messages[i].seqNum > messages[hi].seqNum {
        hi := i;
      }
    }
    range := SeqNumRange(messages[lo].seqNum, messages[hi].seqNum);
  }

  /** Some report about chain c has messages on both sides of s, or at s. */
  ghost predicate Spanned(reports: seq<ChainReport>, c: ChainSelector, s: SeqNum) {
    exists i, j, k :: Between(reports, c, s, i, j, k)
  }

  ghost predicate Between(reports: seq<ChainReport>, c: ChainSelector, s: SeqNum, i: int, j: int, k: int) {
    && 0 <= i < |reports| && reports[i].source == c
    && 0 <= j < |reports[i].messages| && 0 <= k < |reports[i].messages|
    && reports[i].messages[j].seqNum <= s <= reports[i].messages[k].seqNum
  }

  type Ranges = map<ChainSelector, seq<SeqNumRange>>

  ghost predicate InRanges(ranges: Ranges, c: ChainSelector, s: SeqNum) {
    c in ranges && exists i :: 0 <= i < |ranges[c]| && ranges[c][i].Contains(s)
  }

  lemma SpanIsBetween(reports: seq<ChainReport>, n: nat, range: SeqNumRange, c: ChainSelector, s: SeqNum)
    requires n < |reports| && IsSpan(reports[n].messages, range)
    ensures Spanned(reports[..n + 1], c, s) <==>
            Spanned(reports[..n], c, s) || (reports[n].source == c && range.Contains(s))
  {
    if Spanned(reports[..n + 1], c, s) {
      var i, j, k :| Between(reports[..n + 1], c, s, i, j, k);
      if i < n {
        assert Between(reports[..n], c, s, i, j, k);
      }
    }
    if Spanned(reports[..n], c, s) {
      var i, j, k :| Between(reports[..n], c, s, i, j, k);
      assert Between(reports[..n + 1], c, s, i, j, k);
    }
    if reports[n].source == c && range.Contains(s) {
      var j :| 0 <= j < |reports[n].messages| && reports[n].messages[j].seqNum == range.start;
      var k :| 0 <= k < |reports[n].messages| && reports[n].messages[k].seqNum == range.end;
      assert Between(reports[..n + 1], c, s, n, j, k);
    }
  }

  lemma EmptySpansNothing(reports: seq<ChainReport>, n: nat, c: ChainSelector, s: SeqNum)
    requires n < |reports| && reports[n].messages == []
    ensures Spanned(reports[..n + 1], c, s) <==> Spanned(reports[..n], c, s)
  {
    if Spanned(reports[..n + 1], c, s) {
      var i, j, k :| Between(reports[..n + 1], c, s, i, j, k);
      assert Between(reports[..n], c, s, i, j, k);
    }
    if Spanned(reports[..n], c, s) {
      var i, j, k :| Between(reports[..n], c, s, i, j, k);
      assert Between(reports[..n + 1], c, s, i, j, k);
    }
  }

  lemma RangeAdded(ranges: Ranges, source: ChainSelector, range: SeqNumRange, ranges': Ranges, c: ChainSelector,
                   s: SeqNum)
    requires ranges' == ranges[source := (if source in ranges then ranges[source] else []) + [range]]
    ensures InRanges(ranges', c, s) <==> InRanges(ranges, c, s) || (c == source && range.Contains(s))
  {
    var before := if source in ranges then ranges[source] else [];
    if c == source {
      if InRanges(ranges, c, s) {
        var i :| 0 <= i < |before| && before[i].Contains(s);
        assert (before + [range])[i] == before[i];
      }
      assert (before + [range])[|before|] == range;
    }
  }

  ghost predicate Proper(ranges: Ranges) {
    forall c :: c in ranges ==>
      && ranges[c] != []
      && forall i :: 0 <= i < |ranges[c]| ==> ranges[c][i].start <= ranges[c][i].end
  }

  method GetSeqNrRangesBySource(reports: seq<ChainReport>) returns (ranges: Ranges)
    ensures Proper(ranges)
    ensures forall c, s :: InRanges(ranges, c, s) <==> Spanned(reports, c, s)
  {
    ranges := map[];
    for n := 0 to |reports|
      invariant Proper(ranges)
      invariant forall c, s :: InRanges(ranges, c, s) <==> Spanned(reports[..n], c, s)
    {
      ghost var before := ranges;
      if |reports[n].messages| == 0 {
        forall c, s
          ensures InRanges(ranges, c, s) <==> Spanned(reports[..n + 1], c, s)
        {
          EmptySpansNothing(reports, n, c, s);
        }
        continue;
      }
      var range := Span(reports[n].messages);
      var source := reports[n].source;
      ranges := ranges[source := (if source in ranges then ranges[source] else []) + [range]];
      forall c, s
        ensures InRanges(ranges, c, s) <==> Spanned(reports[..n + 1], c, s)
      {
        SpanIsBetween(reports, n, range, c, s);
        RangeAdded(before, source, range, ranges, c, s);
      }
    }
    assert reports[..|reports|] == reports;
  }

  // ---------- the check ----------

  datatype Verdict = Accept | AlreadyExecuted

  /** The numbers of the ranges, as a set. */
  ghost function Union(ranges: seq<SeqNumRange>): set<SeqNum> {
    if ranges == [] then {} else Union(ranges[..|ranges| - 1]) + ranges[|ranges| - 1].Nums()
  }

  lemma {:induction false} UnionExact(ranges: seq<SeqNumRange>, s: SeqNum)
    ensures s in Union(ranges) <==> exists i :: 0 <= i < |ranges| && ranges[i].Contains(s)
  {
    if ranges != [] {
      var front, last := ranges[..|ranges| - 1], ranges[|ranges| - 1];
      UnionExact(front, s);
      if s in Union(front) {
        var i :| 0 <= i < |front| && front[i].Contains(s);
        assert ranges[i].Contains(s);
      }
      if last.Contains(s) {
        assert ranges[|ranges| - 1].Contains(s);
      }
    }
  }

  /** snRange.ToSlice for each range, appended to one set. */
  method CollectNumbers(ranges: seq<SeqNumRange>) returns (sns: set<SeqNum>)
    requires forall i :: 0 <= i < |ranges| ==> ranges[i].start <= ranges[i].end < MAX_SEQ_NUM
    ensures sns == Union(ranges)
  {
    sns := {};
    for i := 0 to |ranges|
      invariant sns == Union(ranges[..i])
    {
      assert ranges[..i + 1][..i] == ranges[..i];
      ghost var before := sns;
      var n: int := ranges[i].start;
      while n <= ranges[i].end
        invariant ranges[i].start <= n <= ranges[i].end + 1
        invariant forall s: SeqNum :: s in sns <==> s in before || ranges[i].start <= s < n
      {
        var s: SeqNum := n;
        sns := sns + {s};
        n := n + 1;
      }
      assert sns == before + ranges[i].Nums();
    }
    assert ranges[..|ranges|] == ranges;
  }

  /** All numbers of the ranges of chain c are executed. */
  ghost predicate ChainExecuted(ranges: Ranges, executed: map<ChainSelector, seq<SeqNum>>, c: ChainSelector)
    requires c in ranges
  {
    c in executed && forall s :: s in Union(ranges[c]) ==> s in executed[c]
  }

  /** The numbers that are executed, compared by how many they are. */
  method ChainDone(ranges: seq<SeqNumRange>, executed: seq<SeqNum>) returns (done: bool)
    requires forall i :: 0 <= i < |ranges| ==> ranges[i].start <= ranges[i].end < MAX_SEQ_NUM
    ensures done <==> forall s :: s in Union(ranges) ==> s in executed
  {
    var sns := CollectNumbers(ranges);
    var executedSet: set<SeqNum> := set s | s in executed;
    var intersection := executedSet * sns;
    if |intersection| != |sns| {
      assert intersection != sns;
      return false;
    }
    SameSizeSubset(intersection, sns);
    return true;
  }

  /** The reader's answer is given; a failure to read is an error of its own. */
  method CheckRanges(ranges: Ranges, executed: map<ChainSelector, seq<SeqNum>>) returns (v: Verdict)
    requires forall c, i :: c in ranges && 0 <= i < |ranges[c]| ==> ranges[c][i].start <= ranges[c][i].end < MAX_SEQ_NUM
    ensures v == AlreadyExecuted <==> forall c :: c in ranges ==> ChainExecuted(ranges, executed, c)
  {
    var rest := ranges.Keys;
    while rest != {}
      invariant rest <= ranges.Keys
      invariant forall c :: c in ranges && c !in rest ==> ChainExecuted(ranges, executed, c)
    {
      var c :| c in rest;
      rest := rest - {c};
      if c !in executed {
        assert !ChainExecuted(ranges, executed, c);
        return Accept;
      }
      var done := ChainDone(ranges[c], executed[c]);
      if !done {
        assert !ChainExecuted(ranges, executed, c);
        return Accept;
      }
    }
    return AlreadyExecuted;
  }

  /** s is executed on chain c. */
  ghost predicate Executed(executed: map<ChainSelector, seq<SeqNum>>, c: ChainSelector, s: SeqNum) {
    c in executed && s in executed[c]
  }

  lemma ChainExecutedExact(ranges: Ranges, executed: map<ChainSelector, seq<SeqNum>>, c: ChainSelector)
    requires Proper(ranges) && c in ranges
    ensures ChainExecuted(ranges, executed, c) <==> forall s :: InRanges(ranges, c, s) ==> Executed(executed, c, s)
  {
    forall s
      ensures InRanges(ranges, c, s) <==> s in Union(ranges[c])
    {
      UnionExact(ranges[c], s);
    }
    assert ranges[c][0].Contains(ranges[c][0].start);
    assert InRanges(ranges, c, ranges[c][0].start);
  }

  /** Whatever order the chains are walked in: refused exactly if every number between the lowest and
      the highest message of every report is executed. */
  method CheckAlreadyExecuted(reports: seq<ChainReport>, executed: map<ChainSelector, seq<SeqNum>>) returns (v: Verdict)
    requires forall i, j :: 0 <= i < |reports| && 0 <= j < |reports[i].messages| ==>
               reports[i].messages[j].seqNum < MAX_SEQ_NUM
    ensures v == AlreadyExecuted <==> AllSpansExecuted(reports, executed)
  {
    var ranges := GetSeqNrRangesBySource(reports);
    RangesBelowMax(reports, ranges);
    v := CheckRanges(ranges, executed);
    forall c | c in ranges
      ensures ChainExecuted(ranges, executed, c) <==> forall s :: InRanges(ranges, c, s) ==> Executed(executed, c, s)
    {
      ChainExecutedExact(ranges, executed, c);
    }
  }

  ghost predicate AllSpansExecuted(reports: seq<ChainReport>, executed: map<ChainSelector, seq<SeqNum>>) {
    forall c, s :: Spanned(reports, c, s) ==> Executed(executed, c, s)
  }

  lemma RangesBelowMax(reports: seq<ChainReport>, ranges: Ranges)
    requires forall i, j :: 0 <= i < |reports| && 0 <= j < |reports[i].messages| ==>
               reports[i].messages[j].seqNum < MAX_SEQ_NUM
    requires Proper(ranges) && forall c, s :: InRanges(ranges, c, s) <==> Spanned(reports, c, s)
    ensures forall c, i :: c in ranges && 0 <= i < |ranges[c]| ==> ranges[c][i].start <= ranges[c][i].end < MAX_SEQ_NUM
  {
    forall c, i | c in ranges && 0 <= i < |ranges[c]|
      ensures ranges[c][i].start <= ranges[c][i].end < MAX_SEQ_NUM
    {
      assert ranges[c][i].Contains(ranges[c][i].end);
      assert InRanges(ranges, c, ranges[c][i].end);
      var a, j, k :| Between(reports, c, ranges[c][i].end, a, j, k);
    }
  }

  /** A report with a message that is not executed is never refused. */
  lemma UnexecutedIsAccepted(reports: seq<ChainReport>, executed: map<ChainSelector, seq<SeqNum>>, i: nat, j: nat)
    requires AllSpansExecuted(reports, executed) && i < |reports| && j < |reports[i].messages|
    ensures Executed(executed, reports[i].source, reports[i].messages[j].seqNum)
  {
    assert Between(reports, reports[i].source, reports[i].messages[j].seqNum, i, j, j);
  }
}
