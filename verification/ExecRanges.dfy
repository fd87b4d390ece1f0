/** Merging the ranges of commit reports into as few contiguous ranges as possible. */
module ExecRanges {
  import opened CcipTypes
  import opened Sorting
  import opened ExecTypes

  /** Some range of the family holds s. */
  ghost predicate InFamily(family: seq<SeqNumRange>, s: SeqNum) {
    exists a :: 0 <= a < |family| && family[a].Contains(s)
  }

  /** The ranges of the reports. */
  function RangesOf(reports: seq<CommitData>): seq<SeqNumRange> {
    seq(|reports|, i requires 0 <= i < |reports| => reports[i].range)
  }

  ghost predicate NonEmpty(ranges: seq<SeqNumRange>) {
    forall a :: 0 <= a < |ranges| ==> ranges[a].start <= ranges[a].end
  }

  /** Sorted by start, as the caller has to provide them. */
  ghost predicate SortedByStart(ranges: seq<SeqNumRange>) {
    forall a, b :: 0 <= a < b < |ranges| ==> ranges[a].start <= ranges[b].start
  }

  ghost predicate Disjoint(ranges: seq<SeqNumRange>) {
    forall a, b :: 0 <= a < b < |ranges| ==> !ranges[a].Overlaps(ranges[b])
  }

  /** Non-empty ranges in order with at least one number missing between any two: pairwise disjoint
      and not even adjacent. */
  ghost predicate Separated(family: seq<SeqNumRange>) {
    && NonEmpty(family)
    && forall a, b :: 0 <= a < b < |family| ==> family[a].end + 1 < family[b].start
  }

  ghost predicate SameNumbers(a: seq<SeqNumRange>, b: seq<SeqNumRange>) {
    forall s :: InFamily(a, s) <==> InFamily(b, s)
  }

  /** Not so: the first report takes the whole number space and the next starts at zero again. */
  ghost predicate NoWrap(ranges: seq<SeqNumRange>) {
    |ranges| >= 2 ==> !(ranges[0].start == 0 && ranges[0].end == MAX_SEQ_NUM && ranges[1].start == 0)
  }

  /** The merged ranges so far, of which the last may still grow. */
  ghost predicate MergedTo(ranges: seq<SeqNumRange>, family: seq<SeqNumRange>) {
    && ranges != [] && family != [] && Disjoint(ranges) && Separated(family) && SameNumbers(family, ranges)
    && family[|family| - 1].end == ranges[|ranges| - 1].end
    && family[|family| - 1].start <= ranges[|ranges| - 1].start
  }

  lemma {:induction false} LastIsHighest(ranges: seq<SeqNumRange>, family: seq<SeqNumRange>, a: nat, s: SeqNum)
    requires MergedTo(ranges, family) && a < |ranges| && ranges[a].Contains(s)
    ensures s <= family[|family| - 1].end
  {
    assert InFamily(ranges, s);
    assert InFamily(family, s);
  }

  lemma InFamilyAppend(ranges: seq<SeqNumRange>, r: SeqNumRange, s: SeqNum)
    ensures InFamily(ranges + [r], s) <==> InFamily(ranges, s) || r.Contains(s)
  {
    if InFamily(ranges, s) {
      var a :| 0 <= a < |ranges| && ranges[a].Contains(s);
      assert (ranges + [r])[a] == ranges[a];
    }
    assert (ranges + [r])[|ranges|] == r;
  }

  /** A range above everything so far overlaps nothing. */
  lemma StillDisjoint(ranges: seq<SeqNumRange>, family: seq<SeqNumRange>, r: SeqNumRange)
    requires MergedTo(ranges, family) && NonEmpty(ranges) && r.start > family[|family| - 1].end
    ensures Disjoint(ranges + [r])
  {
    forall a | 0 <= a < |ranges|
      ensures !ranges[a].Overlaps(r)
    {
      LastIsHighest(ranges, family, a, ranges[a].end);
    }
  }

  /** The next range continues the last one. */
  lemma Extend(ranges: seq<SeqNumRange>, family: seq<SeqNumRange>, r: SeqNumRange, grown: seq<SeqNumRange>)
    requires MergedTo(ranges, family) && NonEmpty(ranges) && r.start <= r.end
    requires r.start == family[|family| - 1].end + 1
    requires grown == family[..|family| - 1] + [SeqNumRange(family[|family| - 1].start, r.end)]
    ensures MergedTo(ranges + [r], grown)
  {
    var front, last := family[..|family| - 1], family[|family| - 1];
    StillDisjoint(ranges, family, r);
    assert family == front + [last];
    forall s
      ensures InFamily(grown, s) <==> InFamily(ranges + [r], s)
    {
      InFamilyAppend(front, last, s);
      InFamilyAppend(front, SeqNumRange(last.start, r.end), s);
      InFamilyAppend(ranges, r, s);
    }
  }

  /** The next range leaves a gap. */
  lemma Restart(ranges: seq<SeqNumRange>, family: seq<SeqNumRange>, r: SeqNumRange)
    requires MergedTo(ranges, family) && NonEmpty(ranges) && r.start <= r.end
    requires r.start > family[|family| - 1].end + 1
    ensures MergedTo(ranges + [r], family + [r])
  {
    StillDisjoint(ranges, family, r);
    forall s
      ensures InFamily(family + [r], s) <==> InFamily(ranges + [r], s)
    {
      InFamilyAppend(family, r, s);
      InFamilyAppend(ranges, r, s);
    }
  }

  /** The next range shares a number with the last one, hence with a report. */
  lemma OverlapFound(ranges: seq<SeqNumRange>, i: nat, family: seq<SeqNumRange>)
    requires i < |ranges| && NonEmpty(ranges) && MergedTo(ranges[..i], family)
    requires ranges[i].Overlaps(family[|family| - 1])
    ensures !Disjoint(ranges)
  {
    var last := family[|family| - 1];
    OverlapMeansShared(ranges[i], last);
    var s :| s in ranges[i].Nums() && s in last.Nums();
    assert last.Contains(s) && ranges[i].Contains(s);
    assert InFamily(family, s);
    assert InFamily(ranges[..i], s);
    var a :| 0 <= a < i && ranges[..i][a].Contains(s);
    assert ranges[a].Overlaps(ranges[i]);
  }

  /** End + 1 wraps to zero only if the first two reports both start at zero. */
  lemma NoWrapHere(ranges: seq<SeqNumRange>, i: nat, family: seq<SeqNumRange>)
    requires 0 < i < |ranges| && NonEmpty(ranges) && SortedByStart(ranges) && NoWrap(ranges)
    requires MergedTo(ranges[..i], family)
    ensures (family[|family| - 1].end + 1) % UINT64_MODULUS == ranges[i].start <==>
            family[|family| - 1].end + 1 == ranges[i].start
  {
    assert ranges[0].start <= ranges[i].start;
    assert ranges[..i][0] == ranges[0];
    if i > 1 {
      assert ranges[1].start <= ranges[i].start;
      assert !ranges[..i][0].Overlaps(ranges[..i][1]);
    }
  }

  /** What a result means: none exactly if two reports overlap, and otherwise the merged family. */
  ghost predicate IsMerge(ranges: seq<SeqNumRange>, r: Option<seq<SeqNumRange>>) {
    && (r.None? <==> !Disjoint(ranges))
    && (r.Some? ==> Separated(r.value) && SameNumbers(r.value, ranges))
  }

  lemma MergedStep(ranges: seq<SeqNumRange>, i: nat, family: seq<SeqNumRange>)
    requires 0 < i < |ranges| && NonEmpty(ranges) && SortedByStart(ranges) && MergedTo(ranges[..i], family)
    requires !ranges[i].Overlaps(family[|family| - 1])
    ensures ranges[i].start > family[|family| - 1].end
  {
    assert ranges[..i][i - 1].start <= ranges[i].start;
  }

  /** One pass over the rest: the current range is extended, closed, or found to overlap. The test for
      adjacency adds in 64 bits. */
  function MergeFrom(closed: seq<SeqNumRange>, current: SeqNumRange, rest: seq<SeqNumRange>): Option<seq<SeqNumRange>>
    decreases |rest|
  {
    if rest == [] then Some(closed + [current])
    else if (current.end + 1) % UINT64_MODULUS ==
      rest[0].start then MergeFrom(closed, current.(end := rest[0].end), rest[1..])
    else if rest[0].Overlaps(current) then None
    else MergeFrom(closed + [current], rest[0], rest[1..])
  }

  function Merge(ranges: seq<SeqNumRange>): Option<seq<SeqNumRange>> {
    if ranges == [] then Some([]) else MergeFrom([], ranges[0], ranges[1..])
  }

  method ComputeRanges(reports: seq<CommitData>) returns (r: Option<seq<SeqNumRange>>)
    ensures r == Merge(RangesOf(reports))
  {
    if reports == [] {
      return Some([]);
    }
    ghost var all := RangesOf(reports);
    var ranges: seq<SeqNumRange> := [];
    var seqRange := SeqNumRange(0, 0);
    for i := 0 to |reports|
      invariant i == 0 ==> ranges == []
      invariant i > 0 ==> Merge(all) == MergeFrom(ranges, seqRange, all[i..])
    {
      var next := reports[i].range;
      assert i > 0 ==> all[i..][0] == next && all[i..][1..] == all[i + 1..];
      if i == 0 {
        seqRange := SeqNumRange(next.start, next.end);
      } else if (seqRange.end + 1) % UINT64_MODULUS == next.start {
        seqRange := seqRange.(end := next.end);
      } else if next.Overlaps(seqRange) {
        return None;
      } else {
        ranges := ranges + [seqRange];
        seqRange := SeqNumRange(next.start, next.end);
      }
    }
    return Some(ranges + [seqRange]);
  }

  lemma {:induction false} MergeFromCorrect(all: seq<SeqNumRange>, i: nat, closed: seq<SeqNumRange>,
                                            current: SeqNumRange)
    requires 0 < i <= |all| && NonEmpty(all) && SortedByStart(all) && NoWrap(all)
    requires MergedTo(all[..i], closed + [current])
    ensures IsMerge(all, MergeFrom(closed, current, all[i..]))
    decreases |all| - i
  {
    var family := closed + [current];
    if i == |all| {
      assert all[..i] == all;
    } else {
      var next := all[i];
      assert all[..i + 1] == all[..i] + [next];
      assert all[i..][0] == next && all[i..][1..] == all[i + 1..];
      NoWrapHere(all, i, family);
      if (current.end + 1) % UINT64_MODULUS == next.start {
        Extend(all[..i], family, next, closed + [current.(end := next.end)]);
        MergeFromCorrect(all, i + 1, closed, current.(end := next.end));
      } else if next.Overlaps(current) {
        OverlapFound(all, i, family);
      } else {
        MergedStep(all, i, family);
        Restart(all[..i], family, next);
        MergeFromCorrect(all, i + 1, family, next);
      }
    }
  }

  /** On non-empty ranges sorted by start: an error exactly if two of them overlap, otherwise
      separated ranges with exactly the same numbers. */
  lemma MergeCorrect(all: seq<SeqNumRange>)
    requires NonEmpty(all) && SortedByStart(all) && NoWrap(all)
    ensures IsMerge(all, Merge(all))
  {
    if all == [] {
      assert forall s :: !InFamily([], s);
    } else {
      assert all[..1] == [all[0]] == [] + [all[0]];
      MergeFromCorrect(all, 1, [], all[0]);
    }
  }

  // ---------- no smaller family ----------

  /** A range that holds the starts of two separated ranges holds the gap between them. */
  lemma OneRangeOneMember(family: seq<SeqNumRange>, g: seq<SeqNumRange>, a: nat, b: nat, j: nat)
    requires Separated(family) && SameNumbers(family, g)
    requires a < b < |family| && j < |g| && g[j].Contains(family[a].start)
    ensures !g[j].Contains(family[b].start)
  {
    assert family[a].end + 1 < family[b].start;
    var gap: SeqNum := family[a].end + 1;
    forall d | 0 <= d < |family|
      ensures !family[d].Contains(gap)
    {
      assert d < a || d == a || a < d;
    }
    assert !InFamily(g, gap);
  }

  /** The members of g that hold the starts of the first n ranges are n different ones. */
  lemma {:induction false} StartsNeedRanges(family: seq<SeqNumRange>, g: seq<SeqNumRange>,
                                            n: nat) returns (used: set<nat>)
    requires Separated(family) && SameNumbers(family, g) && n <= |family|
    ensures |used| == n
    ensures forall j :: j in used ==> j < |g| && exists a :: 0 <= a < n && g[j].Contains(family[a].start)
  {
    if n == 0 {
      used := {};
    } else {
      var before := StartsNeedRanges(family, g, n - 1);
      assert InFamily(family, family[n - 1].start);
      assert InFamily(g, family[n - 1].start);
      var j: nat :| j < |g| && g[j].Contains(family[n - 1].start);
      if j in before {
        var a :| 0 <= a < n - 1 && g[j].Contains(family[a].start);
        OneRangeOneMember(family, g, a, n - 1, j);
      }
      used := before + {j};
    }
  }

  /** The numbers 0, ..., n - 1. */
  lemma {:induction false} BelowSize(used: set<nat>, n: nat)
    requires forall j :: j in used ==> j < n
    ensures |used| <= n
  {
    if n == 0 {
      assert used == {};
    } else {
      BelowSize(used - {n - 1}, n - 1);
    }
  }

  /** The merged family is the smallest: any family of ranges with the same numbers has as many members. */
  lemma MergeIsMinimal(reports: seq<CommitData>, family: seq<SeqNumRange>, g: seq<SeqNumRange>)
    requires IsMerge(RangesOf(reports), Some(family))
    requires SameNumbers(g, RangesOf(reports))
    ensures |family| <= |g|
  {
    assert SameNumbers(family, g);
    var used := StartsNeedRanges(family, g, |family|);
    BelowSize(used, |g|);
  }

  /** The number behind a range is not held. */
  lemma AfterEnd(family: seq<SeqNumRange>, j: nat)
    requires Separated(family) && j < |family| && family[j].end < MAX_SEQ_NUM
    ensures !InFamily(family, family[j].end + 1)
  {
  }

  lemma InBoth(a: seq<SeqNumRange>, b: seq<SeqNumRange>, i: nat)
    requires Separated(a) && Separated(b) && SameNumbers(a, b) && i < |a|
    ensures exists j :: 0 <= j < |b| && b[j].start <= a[i].start && a[i].end <= b[j].end
  {
    assert InFamily(a, a[i].start);
    assert InFamily(b, a[i].start);
    var j :| 0 <= j < |b| && b[j].Contains(a[i].start);
    if b[j].end < a[i].end {
      AfterEnd(b, j);
      assert a[i].Contains(b[j].end + 1);
    }
  }

  lemma AlsoThere(a: seq<SeqNumRange>, b: seq<SeqNumRange>, i: nat)
    requires Separated(a) && Separated(b) && SameNumbers(a, b) && i < |a|
    ensures a[i] in b
  {
    InBoth(a, b, i);
    var j :| 0 <= j < |b| && b[j].start <= a[i].start && a[i].end <= b[j].end;
    InBoth(b, a, j);
    var k :| 0 <= k < |a| && a[k].start <= b[j].start && b[j].end <= a[k].end;
    assert k < i || k == i || i < k;
    assert a[i] == b[j];
  }

  /** The result is determined by the numbers alone. */
  lemma MergeIsUnique(a: seq<SeqNumRange>, b: seq<SeqNumRange>)
    requires Separated(a) && Separated(b) && SameNumbers(a, b)
    ensures a == b
  {
    var key := (x: SeqNumRange) => x.start as int;
    forall i | 0 <= i < |a|
      ensures a[i] in b
    {
      AlsoThere(a, b, i);
    }
    forall i | 0 <= i < |b|
      ensures b[i] in a
    {
      AlsoThere(b, a, i);
    }
    AscendingByUnique(a, b, key);
  }

  // ---------- wrap-around ----------

  /** The ranges without leading ones that End + 1 makes disappear: of all numbers, with the next
      starting at zero again. */
  ghost function Unwrapped(all: seq<SeqNumRange>): seq<SeqNumRange> {
    if NoWrap(all) then all else Unwrapped(all[1..])
  }

  lemma {:induction false} UnwrappedMerge(all: seq<SeqNumRange>)
    requires NonEmpty(all) && SortedByStart(all)
    ensures NonEmpty(Unwrapped(all)) && SortedByStart(Unwrapped(all)) && NoWrap(Unwrapped(all))
    ensures Merge(all) == Merge(Unwrapped(all))
  {
    if !NoWrap(all) {
      var rest := all[1..];
      UnwrappedMerge(rest);
      assert all[0].(end := rest[0].end) == rest[0];
      assert Merge(all) == MergeFrom([], rest[0], rest[1..]);
    }
  }

  /** Without any assumption on the ends: the result is right exactly if no leading range disappears,
      or if those that remain still overlap. */
  lemma MergeExactlyCorrect(all: seq<SeqNumRange>)
    requires NonEmpty(all) && SortedByStart(all)
    ensures IsMerge(Unwrapped(all), Merge(all))
    ensures IsMerge(all, Merge(all)) <==> NoWrap(all) || !Disjoint(Unwrapped(all))
  {
    UnwrappedMerge(all);
    MergeCorrect(Unwrapped(all));
    if !NoWrap(all) {
      assert all[0].Overlaps(all[1]);
    }
  }

  /** For example: behind a report of all numbers, another that starts at zero passes for its
      continuation, so the overlap is not noticed and the numbers above its end are lost. */
  lemma WrapHidesOverlap(end: SeqNum)
    requires end < MAX_SEQ_NUM
    ensures Merge([SeqNumRange(0, MAX_SEQ_NUM), SeqNumRange(0, end)]) == Some([SeqNumRange(0, end)])
    ensures !IsMerge([SeqNumRange(0, MAX_SEQ_NUM), SeqNumRange(0, end)], Some([SeqNumRange(0, end)]))
  {
    var input := [SeqNumRange(0, MAX_SEQ_NUM), SeqNumRange(0, end)];
    assert input[0].Overlaps(input[1]);
    assert input[1..] == [SeqNumRange(0, end)];
    assert [SeqNumRange(0, end)][1..] == [];
    assert MergeFrom([], input[0], input[1..]) == MergeFrom([], SeqNumRange(0, end), []);
    assert [] + [SeqNumRange(0, end)] == [SeqNumRange(0, end)];
  }
}
