/** Sorting commit reports by how far their messages are executed. */
module ExecClassification {
  import opened CcipTypes
  import opened Sorting
  import opened Sums
  import opened ExecTypes

  /** Every number of the report is in s. */
  ghost predicate Whole(report: CommitData, s: set<SeqNum>) {
    report.range.Nums() <= s
  }

  /** The report with the numbers of s in its range listed as executed. */
  ghost function Listing(report: CommitData, s: set<SeqNum>): CommitData {
    report.(executed := report.executed + Ascending(report.range.Nums() * s))
  }

  ghost function Pending(reports: seq<CommitData>, s: set<SeqNum>): seq<CommitData> {
    if reports == [] then []
    else
      var last := reports[|reports| - 1];
      Pending(reports[..|reports| - 1], s) + if Whole(last, s) then [] else [Listing(last, s)]
  }

  ghost function FullyExecuted(reports: seq<CommitData>, s: set<SeqNum>): seq<CommitData> {
    if reports == [] then []
    else
      var last := reports[|reports| - 1];
      FullyExecuted(reports[..|reports| - 1], s) + if Whole(last, s) then [last] else []
  }

  /** The elements of the list that lie in the range, in order. */
  function Filtered(range: SeqNumRange, list: seq<SeqNum>): seq<SeqNum> {
    if list == [] then []
    else Filtered(range, list[..|list| - 1]) + if range.Contains(list[|list| - 1]) then [list[|list| - 1]] else []
  }

  method FilterSlice(range: SeqNumRange, list: seq<SeqNum>) returns (r: seq<SeqNum>)
    ensures r == Filtered(range, list)
  {
    r := [];
    for i := 0 to |list|
      invariant r == Filtered(range, list[..i])
    {
      assert list[..i + 1][..i] == list[..i];
      if range.Contains(list[i]) {
        r := r + [list[i]];
      }
    }
    assert list[..|list|] == list;
  }

  /** Filtering keeps exactly the elements in the range, each as often as before. */
  lemma {:induction false} FilteredExact(range: SeqNumRange, list: seq<SeqNum>)
    ensures |Filtered(range, list)| <= |list|
    ensures forall x :: x in Filtered(range, list) <==> x in list && range.Contains(x)
    ensures NoDuplicates(list) ==> NoDuplicates(Filtered(range, list))
  {
    if list != [] {
      var front, last := list[..|list| - 1], list[|list| - 1];
      FilteredExact(range, front);
      assert list == front + [last];
      if NoDuplicates(list) {
        assert last !in front;
        assert last !in Filtered(range, front);
      }
    }
  }

  lemma {:induction false} DistinctSize(list: seq<SeqNum>)
    requires NoDuplicates(list)
    ensures |SetOf(list)| == |list|
  {
    if list != [] {
      var front, last := list[..|list| - 1], list[|list| - 1];
      DistinctSize(front);
      assert SetOf(list) == SetOf(front) + {last};
      assert last !in SetOf(front);
    }
  }

  /** Sorting distinct numbers lists their set in ascending order. */
  lemma SortIsAscending(list: seq<SeqNum>, s: set<SeqNum>)
    requires NoDuplicates(list) && SetOf(list) == s
    ensures Sort(list) == Ascending(s)
  {
    var key := (v: SeqNum) => v as int;
    SortByDistinct(list, key);
    SortByMembers(list, key);
    AscendingOrder(s);
    AscendingMembers(s);
    var a, b := Sort(list), Ascending(s);
    assert forall i :: 0 <= i < |a| ==> a[i] in list && a[i] in SetOf(list);
    assert forall i :: 0 <= i < |b| ==> b[i] in s;
    AscendingByUnique(a, b, key);
  }

  /** Comparing a count with the length decides whether all of a non-empty range is there. A slice has
      fewer than 2^63 elements, so the wrapped length of a larger range equals none but zero. */
  lemma CountDecides(range: SeqNumRange, found: seq<SeqNum>, list: seq<SeqNum>)
    requires range.start <= range.end && NoDuplicates(found) && list != [] && |list| < 0x8000_0000_0000_0000
    requires |found| <= |list| && forall x :: x in found <==> x in list && range.Contains(x)
    ensures SetOf(found) == range.Nums() * SetOf(list)
    ensures |found| == range.Length() <==> range.Nums() <= SetOf(list)
  {
    DistinctSize(found);
    NumsSize(range);
    LengthIsSize(range);
    SubsetSize(SetOf(found), range.Nums());
    assert range.Nums() <= SetOf(list) ==> SetOf(found) == range.Nums();
    if range.Size() < 0x8000_0000_0000_0000 {
      if |found| == range.Length() {
        SameSizeSubset(SetOf(found), range.Nums());
      }
    } else {
      HugeRange(range, found, list);
    }
  }

  lemma HugeRange(range: SeqNumRange, found: seq<SeqNum>, list: seq<SeqNum>)
    requires range.Size() >= 0x8000_0000_0000_0000 && list != []
    requires forall x :: x in found <==> x in list && range.Contains(x)
    ensures |found| != range.Length()
  {
    assert list[0] in list;
    if range.Size() == UINT64_MODULUS {
      assert list[0] in found;
    }
  }

  /** As the code counts: as many listed numbers in the range as its length says. */
  predicate CountedWhole(report: CommitData, list: seq<SeqNum>) {
    |Filtered(report.range, list)| == report.range.Length()
  }

  function CountedListing(report: CommitData, list: seq<SeqNum>): CommitData {
    report.(executed := report.executed + Sort(Filtered(report.range, list)))
  }

  /** The reports that are kept, with the numbers found appended. */
  function CountedPending(reports: seq<CommitData>, list: seq<SeqNum>): seq<CommitData> {
    if reports == [] then []
    else
      var last := reports[|reports| - 1];
      CountedPending(reports[..|reports| - 1], list)
      + if CountedWhole(last, list) then [] else [CountedListing(last, list)]
  }

  function CountedExecuted(reports: seq<CommitData>, list: seq<SeqNum>): seq<CommitData> {
    if reports == [] then []
    else
      var last := reports[|reports| - 1];
      CountedExecuted(reports[..|reports| - 1], list) + if CountedWhole(last, list) then [last] else []
  }

  /** Whatever the list and the ranges. */
  method CombineReportsAndMessages(reports: seq<CommitData>, executedMessages: seq<SeqNum>)
    returns (pending: seq<CommitData>, fullyExecuted: seq<CommitData>)
    ensures executedMessages == [] ==> pending == reports && fullyExecuted == []
    ensures executedMessages != [] ==>
              pending == CountedPending(reports, executedMessages)
                && fullyExecuted == CountedExecuted(reports, executedMessages)
  {
    if |executedMessages| == 0 {
      return reports, [];
    }
    pending, fullyExecuted := [], [];
    for i := 0 to |reports|
      invariant pending == CountedPending(reports[..i], executedMessages)
      invariant fullyExecuted == CountedExecuted(reports[..i], executedMessages)
    {
      assert reports[..i + 1][..i] == reports[..i];
      var report := reports[i];
      var found := FilterSlice(report.range, executedMessages);
      if |found| == report.range.Length() {
        fullyExecuted := fullyExecuted + [report];
        continue;
      }
      pending := pending + [report.(executed := reports[i].executed + Sort(found))];
    }
    assert reports[..|reports|] == reports;
  }

  lemma CountedOne(report: CommitData, list: seq<SeqNum>)
    requires report.range.start <= report.range.end && NoDuplicates(list) && list != []
    requires |list| < 0x8000_0000_0000_0000
    ensures CountedWhole(report, list) <==> Whole(report, SetOf(list))
    ensures CountedListing(report, list) == Listing(report, SetOf(list))
  {
    var found := Filtered(report.range, list);
    FilteredExact(report.range, list);
    CountDecides(report.range, found, list);
    SortIsAscending(found, report.range.Nums() * SetOf(list));
  }

  /** On non-empty ranges and a list without repetitions the count means what it should: fully executed
      are exactly the reports all of whose numbers are listed. */
  lemma {:induction false} CountIsMeaning(reports: seq<CommitData>, list: seq<SeqNum>)
    requires NoDuplicates(list) && list != [] && |list| < 0x8000_0000_0000_0000
    requires forall i :: 0 <= i < |reports| ==> reports[i].range.start <= reports[i].range.end
    ensures CountedPending(reports, list) == Pending(reports, SetOf(list))
    ensures CountedExecuted(reports, list) == FullyExecuted(reports, SetOf(list))
  {
    if reports != [] {
      CountIsMeaning(reports[..|reports| - 1], list);
      CountedOne(reports[|reports| - 1], list);
    }
  }

  lemma CombinedMeans(reports: seq<CommitData>, list: seq<SeqNum>, pending: seq<CommitData>,
                      fullyExecuted: seq<CommitData>)
    requires NoDuplicates(list) && |list| < 0x8000_0000_0000_0000
    requires forall i :: 0 <= i < |reports| ==> reports[i].range.start <= reports[i].range.end
    requires list == [] ==> pending == reports && fullyExecuted == []
    requires list != [] ==> pending == CountedPending(reports, list) && fullyExecuted == CountedExecuted(reports, list)
    ensures pending == Pending(reports, SetOf(list)) && fullyExecuted == FullyExecuted(reports, SetOf(list))
  {
    if list == [] {
      NothingExecuted(reports, SetOf(list));
    } else {
      CountIsMeaning(reports, list);
    }
  }

  lemma NothingListed(report: CommitData, s: set<SeqNum>)
    requires s == {} && report.range.start <= report.range.end
    ensures !Whole(report, s) && Listing(report, s) == report
  {
    assert report.range.start in report.range.Nums();
    assert report.range.Nums() * s == {};
    assert report.executed + [] == report.executed;
  }

  lemma {:induction false} NothingExecuted(reports: seq<CommitData>, s: set<SeqNum>)
    requires s == {} && forall i :: 0 <= i < |reports| ==> reports[i].range.start <= reports[i].range.end
    ensures Pending(reports, s) == reports && FullyExecuted(reports, s) == []
  {
    if reports != [] {
      var front, last := reports[..|reports| - 1], reports[|reports| - 1];
      NothingExecuted(front, s);
      NothingListed(last, s);
      assert reports == front + [last];
    }
  }

  // ---------- both passes ----------

  datatype Bucket = FinalizedExecuted | UnfinalizedExecuted | Remaining

  /** Where a report belongs. */
  ghost function BucketOf(report: CommitData, finalized: set<SeqNum>, unconfirmed: set<SeqNum>): Bucket {
    if report.range.Nums() <= finalized then FinalizedExecuted
    else if report.range.Nums() <= unconfirmed - finalized then UnfinalizedExecuted
    else Remaining
  }

  /** The reports of one bucket, in order. */
  ghost function InBucket(reports: seq<CommitData>, finalized: set<SeqNum>, unconfirmed: set<SeqNum>,
                          b: Bucket): seq<CommitData> {
    if reports == [] then []
    else
      var last := reports[|reports| - 1];
      InBucket(reports[..|reports| - 1], finalized, unconfirmed, b)
      + if BucketOf(last, finalized, unconfirmed) == b then [last] else []
  }

  /** kept has each of the reports with its executed numbers appended: the finalized ones, then the others. */
  ghost predicate Marked(reports: seq<CommitData>, finalized: set<SeqNum>, unconfirmed: set<SeqNum>,
                         kept: seq<CommitData>) {
    && |kept| == |reports|
    && forall i :: 0 <= i < |kept| ==>
         kept[i] == reports[i].(executed := reports[i].executed + Ascending(reports[i].range.Nums() * finalized)
                                            + Ascending(reports[i].range.Nums() * (unconfirmed - finalized)))
  }

  lemma UnfinalizedUnmarked(report: CommitData, finalized: set<SeqNum>, unconfirmed: set<SeqNum>)
    requires Whole(report, unconfirmed - finalized)
    ensures Listing(report, finalized) == report
  {
    assert report.range.Nums() * finalized == {};
    assert report.executed + [] == report.executed;
  }

  lemma PassAppend(front: seq<CommitData>, last: CommitData, s: set<SeqNum>)
    ensures Pending(front + [last], s) == Pending(front, s) + if Whole(last, s) then [] else [Listing(last, s)]
    ensures FullyExecuted(front + [last], s) == FullyExecuted(front, s) + if Whole(last, s) then [last] else []
  {
    assert (front + [last])[..|front|] == front;
  }

  lemma MarkedAppend(reports: seq<CommitData>, finalized: set<SeqNum>, unconfirmed: set<SeqNum>,
                     kept: seq<CommitData>, report: CommitData)
    requires Marked(reports, finalized, unconfirmed, kept)
    ensures Marked(reports + [report], finalized, unconfirmed,
                   kept + [Listing(Listing(report, finalized), unconfirmed - finalized)])
  {
  }

  lemma BucketAppend(front: seq<CommitData>, last: CommitData, finalized: set<SeqNum>, unconfirmed: set<SeqNum>,
                     b: Bucket)
    ensures InBucket(front + [last], finalized, unconfirmed, b) ==
            InBucket(front, finalized, unconfirmed, b)
            + if BucketOf(last, finalized, unconfirmed) == b then [last] else []
  {
    assert (front + [last])[..|front|] == front;
  }

  /** A report that is not wholly finalized goes through the second pass. */
  lemma SecondPass(p: seq<CommitData>, last: CommitData, once: CommitData, s: set<SeqNum>)
    requires once.range == last.range && (Whole(last, s) ==> once == last)
    ensures Pending(p + [once], s) == Pending(p, s) + if Whole(last, s) then [] else [Listing(once, s)]
    ensures FullyExecuted(p + [once], s) == FullyExecuted(p, s) + if Whole(last, s) then [last] else []
  {
    PassAppend(p, once, s);
    assert once.range.Nums() == last.range.Nums();
  }

  lemma FirstPass(front: seq<CommitData>, last: CommitData, finalized: set<SeqNum>, unconfirmed: set<SeqNum>,
                  once: CommitData)
    requires once == Listing(last, finalized)
    ensures once.range == last.range && (Whole(last, unconfirmed - finalized) ==> once == last)
    ensures Whole(last, finalized) ==> Pending(front + [last], finalized) == Pending(front, finalized)
    ensures !Whole(last, finalized) ==> Pending(front + [last], finalized) == Pending(front, finalized) + [once]
  {
    PassAppend(front, last, finalized);
    if Whole(last, unconfirmed - finalized) {
      UnfinalizedUnmarked(last, finalized, unconfirmed);
    }
  }

  /** What both passes do to one more report. */
  lemma BothPassesAppend(front: seq<CommitData>, last: CommitData, finalized: set<SeqNum>, unconfirmed: set<SeqNum>,
                         once: CommitData)
    requires once == Listing(last, finalized)
    ensures Pending(Pending(front + [last], finalized), unconfirmed - finalized) ==
            Pending(Pending(front, finalized), unconfirmed - finalized)
            + (if BucketOf(last, finalized, unconfirmed) != Remaining then []
               else [Listing(once, unconfirmed - finalized)])
    ensures FullyExecuted(Pending(front + [last], finalized), unconfirmed - finalized) ==
            FullyExecuted(Pending(front, finalized), unconfirmed - finalized)
            + if BucketOf(last, finalized, unconfirmed) == UnfinalizedExecuted then [last] else []
  {
    FirstPass(front, last, finalized, unconfirmed, once);
    SecondPass(Pending(front, finalized), last, once, unconfirmed - finalized);
  }

  lemma RemainingAppend(front: seq<CommitData>, last: CommitData, finalized: set<SeqNum>, unconfirmed: set<SeqNum>)
    requires Marked(InBucket(front, finalized, unconfirmed, Remaining), finalized, unconfirmed,
                    Pending(Pending(front, finalized), unconfirmed - finalized))
    ensures Marked(InBucket(front + [last], finalized, unconfirmed, Remaining), finalized, unconfirmed,
                   Pending(Pending(front + [last], finalized), unconfirmed - finalized))
  {
    BothPassesAppend(front, last, finalized, unconfirmed, Listing(last, finalized));
    BucketAppend(front, last, finalized, unconfirmed, Remaining);
    if BucketOf(last, finalized, unconfirmed) == Remaining {
      MarkedAppend(InBucket(front, finalized, unconfirmed, Remaining), finalized, unconfirmed,
                   Pending(Pending(front, finalized), unconfirmed - finalized), last);
    }
  }

  lemma UnfinalizedAppend(front: seq<CommitData>, last: CommitData, finalized: set<SeqNum>, unconfirmed: set<SeqNum>)
    requires FullyExecuted(Pending(front, finalized), unconfirmed - finalized) ==
             InBucket(front, finalized, unconfirmed, UnfinalizedExecuted)
    ensures FullyExecuted(Pending(front + [last], finalized), unconfirmed - finalized) ==
            InBucket(front + [last], finalized, unconfirmed, UnfinalizedExecuted)
  {
    BothPassesAppend(front, last, finalized, unconfirmed, Listing(last, finalized));
    BucketAppend(front, last, finalized, unconfirmed, UnfinalizedExecuted);
  }

  lemma {:induction false} TwoPasses(reports: seq<CommitData>, finalized: set<SeqNum>, unconfirmed: set<SeqNum>)
    ensures FullyExecuted(reports, finalized) == InBucket(reports, finalized, unconfirmed, FinalizedExecuted)
    ensures FullyExecuted(Pending(reports, finalized), unconfirmed - finalized) ==
            InBucket(reports, finalized, unconfirmed, UnfinalizedExecuted)
    ensures Marked(InBucket(reports, finalized, unconfirmed, Remaining), finalized, unconfirmed,
                   Pending(Pending(reports, finalized), unconfirmed - finalized))
  {
    if reports != [] {
      var front, last := reports[..|reports| - 1], reports[|reports| - 1];
      TwoPasses(front, finalized, unconfirmed);
      assert reports == front + [last];
      UnfinalizedAppend(front, last, finalized, unconfirmed);
      RemainingAppend(front, last, finalized, unconfirmed);
    }
  }

  lemma {:induction false} PendingRanges(reports: seq<CommitData>, s: set<SeqNum>)
    requires forall i :: 0 <= i < |reports| ==> reports[i].range.start <= reports[i].range.end
    ensures forall i :: 0 <= i < |Pending(reports, s)| ==>
              Pending(reports, s)[i].range.start <= Pending(reports, s)[i].range.end
  {
    if reports != [] {
      PendingRanges(reports[..|reports| - 1], s);
    }
  }

  /** The three buckets of one chain. */
  ghost predicate Classified(reports: seq<CommitData>, finalized: set<SeqNum>, unconfirmed: set<SeqNum>,
                             kept: seq<CommitData>, done: seq<CommitData>, doneUnfinalized: seq<CommitData>) {
    && done == InBucket(reports, finalized, unconfirmed, FinalizedExecuted)
    && doneUnfinalized == InBucket(reports, finalized, unconfirmed, UnfinalizedExecuted)
    && Marked(InBucket(reports, finalized, unconfirmed, Remaining), finalized, unconfirmed, kept)
  }

  /** One chain of removeUnconfirmedAndFinalizedMessages. */
  method ClassifyChain(reports: seq<CommitData>, finalized: seq<SeqNum>, unconfirmed: seq<SeqNum>)
    returns (kept: seq<CommitData>, done: seq<CommitData>, doneUnfinalized: seq<CommitData>)
    requires forall i :: 0 <= i < |reports| ==> reports[i].range.start <= reports[i].range.end
    requires |finalized| < 0x8000_0000_0000_0000 && |unconfirmed| < 0x8000_0000_0000_0000
    ensures Classified(reports, SetOf(finalized), SetOf(unconfirmed), kept, done, doneUnfinalized)
  {
    var unconfirmedSet: set<SeqNum> := set x | x in unconfirmed;
    var finalizedSet: set<SeqNum> := set x | x in finalized;
    var unfinalized := Ascending(unconfirmedSet - finalizedSet);
    var sortedFinalized := Ascending(finalizedSet);
    SortedSlice(finalizedSet, finalized);
    SortedSlice(unconfirmedSet - finalizedSet, unconfirmed);
    var remaining;
    remaining, done := CombineReportsAndMessages(reports, sortedFinalized);
    CombinedMeans(reports, sortedFinalized, remaining, done);
    PendingRanges(reports, finalizedSet);
    kept, doneUnfinalized := CombineReportsAndMessages(remaining, unfinalized);
    CombinedMeans(remaining, unfinalized, kept, doneUnfinalized);
    TwoPasses(reports, finalizedSet, unconfirmedSet);
  }

  lemma {:induction false} ListedSize(s: set<SeqNum>, list: seq<SeqNum>)
    requires forall x :: x in s ==> x in list
    ensures |s| <= |list|
  {
    if list == [] {
      assert s == {};
    } else {
      var front, last := list[..|list| - 1], list[|list| - 1];
      forall x | x in s - {last}
        ensures x in front
      {
        assert x in list;
      }
      ListedSize(s - {last}, front);
    }
  }

  /** The sorted slice of a set of listed numbers. */
  lemma SortedSlice(s: set<SeqNum>, list: seq<SeqNum>)
    requires forall x :: x in s ==> x in list
    ensures NoDuplicates(Ascending(s)) && SetOf(Ascending(s)) == s && |Ascending(s)| <= |list|
  {
    AscendingOrder(s);
    AscendingMembers(s);
    ListedSize(s, list);
  }

  // ---------- what is conserved ----------

  lemma OneMore(s: seq<CommitData>, last: CommitData, x: CommitData)
    ensures multiset(s + [last])[x] == multiset(s)[x] + if x == last then 1 else 0
  {
  }

  lemma {:induction false} InOneBucket(reports: seq<CommitData>, finalized: set<SeqNum>, unconfirmed: set<SeqNum>,
                                       b: Bucket, x: CommitData)
    ensures multiset(InBucket(reports, finalized, unconfirmed, b))[x] ==
            if BucketOf(x, finalized, unconfirmed) == b then multiset(reports)[x] else 0
  {
    if reports != [] {
      var front, last := reports[..|reports| - 1], reports[|reports| - 1];
      InOneBucket(front, finalized, unconfirmed, b, x);
      assert reports == front + [last];
      OneMore(front, last, x);
      OneMore(InBucket(front, finalized, unconfirmed, b), last, x);
    }
  }

  /** Every report is in exactly one bucket, as often as it occurs. */
  lemma BucketsPartition(reports: seq<CommitData>, finalized: set<SeqNum>, unconfirmed: set<SeqNum>)
    ensures multiset(reports) == multiset(InBucket(reports, finalized, unconfirmed, FinalizedExecuted))
                                 + multiset(InBucket(reports, finalized, unconfirmed, UnfinalizedExecuted))
                                 + multiset(InBucket(reports, finalized, unconfirmed, Remaining))
  {
    forall x
      ensures multiset(reports)[x] == multiset(InBucket(reports, finalized, unconfirmed, FinalizedExecuted))[x]
                                      + multiset(InBucket(reports, finalized, unconfirmed, UnfinalizedExecuted))[x]
                                      + multiset(InBucket(reports, finalized, unconfirmed, Remaining))[x]
    {
      InOneBucket(reports, finalized, unconfirmed, FinalizedExecuted, x);
      InOneBucket(reports, finalized, unconfirmed, UnfinalizedExecuted, x);
      InOneBucket(reports, finalized, unconfirmed, Remaining, x);
    }
  }

  lemma {:induction false} BucketMembers(reports: seq<CommitData>, finalized: set<SeqNum>, unconfirmed: set<SeqNum>,
                                         b: Bucket, i: nat)
    requires i < |InBucket(reports, finalized, unconfirmed, b)|
    ensures BucketOf(InBucket(reports, finalized, unconfirmed, b)[i], finalized, unconfirmed) == b
  {
    var front := InBucket(reports[..|reports| - 1], finalized, unconfirmed, b);
    if i < |front| {
      BucketMembers(reports[..|reports| - 1], finalized, unconfirmed, b, i);
    }
  }

  lemma AppendDistinct(a: seq<SeqNum>, b: seq<SeqNum>)
    requires NoDuplicates(a) && NoDuplicates(b) && forall x :: x in a ==> x !in b
    ensures NoDuplicates(a + b)
  {
    var c := a + b;
    forall i, j | 0 <= i < j < |c|
      ensures c[i] != c[j]
    {
      if i < |a| <= j {
        assert c[i] in a && c[j] in b;
      }
    }
  }

  /** A remaining report that had nothing listed as executed lists each executed number of its range
      once, finalized or not. If all its numbers are executed, some finalized and some not, it
      remains with all of them listed. */
  lemma RemainingListsExecuted(reports: seq<CommitData>, finalized: set<SeqNum>, unconfirmed: set<SeqNum>,
                               kept: seq<CommitData>, done: seq<CommitData>, doneUnfinalized: seq<CommitData>, i: nat)
    requires Classified(reports, finalized, unconfirmed, kept, done, doneUnfinalized) && i < |kept|
    requires InBucket(reports, finalized, unconfirmed, Remaining)[i].executed == []
    ensures NoDuplicates(kept[i].executed)
    ensures forall s :: s in kept[i].executed <==> kept[i].range.Contains(s) && s in finalized + unconfirmed
    ensures kept[i] == InBucket(reports, finalized, unconfirmed, Remaining)[i].(executed := kept[i].executed)
    ensures !(kept[i].range.Nums() <= finalized) && !(kept[i].range.Nums() <= unconfirmed - finalized)
  {
    var report := InBucket(reports, finalized, unconfirmed, Remaining)[i];
    var a, b := report.range.Nums() * finalized, report.range.Nums() * (unconfirmed - finalized);
    BucketMembers(reports, finalized, unconfirmed, Remaining, i);
    AscendingMembers(a);
    AscendingMembers(b);
    AscendingOrder(a);
    AscendingOrder(b);
    AppendDistinct(Ascending(a), Ascending(b));
    assert [] + Ascending(a) == Ascending(a);
  }

  // ---------- all chains ----------

  function NumbersOf(m: map<ChainSelector, seq<SeqNum>>, c: ChainSelector): seq<SeqNum> {
    if c in m then m[c] else []
  }

  /** The reports of chain c in bucket b. */
  ghost function ChainBucket(executable: CommitObservations, finalized: map<ChainSelector, seq<SeqNum>>,
                             unconfirmed: map<ChainSelector, seq<SeqNum>>, c: ChainSelector, b: Bucket): seq<CommitData>
    requires c in executable
  {
    InBucket(executable[c], SetOf(NumbersOf(finalized, c)), SetOf(NumbersOf(unconfirmed, c)), b)
  }

  /** The chains' buckets b one behind the other, in the given order. */
  ghost function AllOf(executable: CommitObservations, finalized: map<ChainSelector, seq<SeqNum>>,
                       unconfirmed: map<ChainSelector, seq<SeqNum>>, order: seq<ChainSelector>,
                       b: Bucket): seq<CommitData>
    requires forall i :: 0 <= i < |order| ==> order[i] in executable
  {
    if order == [] then []
    else AllOf(executable, finalized, unconfirmed, order[..|order| - 1], b)
         + ChainBucket(executable, finalized, unconfirmed, order[|order| - 1], b)
  }

  /** Each chain once, in some order. */
  ghost predicate IsOrder(executable: CommitObservations, order: seq<ChainSelector>) {
    NoDuplicates(order) && forall c :: c in order <==> c in executable
  }

  ghost predicate MarkedChain(executable: CommitObservations, finalized: map<ChainSelector, seq<SeqNum>>,
                              unconfirmed: map<ChainSelector, seq<SeqNum>>, c: ChainSelector, kept: seq<CommitData>)
    requires c in executable
  {
    Marked(ChainBucket(executable, finalized, unconfirmed, c, Remaining), SetOf(NumbersOf(finalized, c)),
           SetOf(NumbersOf(unconfirmed, c)), kept)
  }

  lemma OneMoreChain(executable: CommitObservations, finalized: map<ChainSelector, seq<SeqNum>>,
                     unconfirmed: map<ChainSelector, seq<SeqNum>>, order: seq<ChainSelector>, c: ChainSelector,
                     b: Bucket)
    requires c in executable && forall i :: 0 <= i < |order| ==> order[i] in executable
    ensures AllOf(executable, finalized, unconfirmed, order + [c], b) ==
            AllOf(executable, finalized, unconfirmed, order, b) + ChainBucket(executable, finalized, unconfirmed, c, b)
  {
    assert (order + [c])[..|order|] == order;
  }

  ghost predicate NonEmptyRanges(executable: CommitObservations) {
    forall c, i :: c in executable && 0 <= i < |executable[c]| ==>
        executable[c][i].range.start <= executable[c][i].range.end
  }

  ghost predicate SliceSized(m: map<ChainSelector, seq<SeqNum>>) {
    forall c :: c in m ==> |m[c]| < 0x8000_0000_0000_0000
  }

  /** The fully executed reports of the chains handled so far. */
  ghost predicate Gathered(executable: CommitObservations, finalized: map<ChainSelector, seq<SeqNum>>,
                           unconfirmed: map<ChainSelector, seq<SeqNum>>, order: seq<ChainSelector>,
                           done: seq<CommitData>, doneUnfinalized: seq<CommitData>) {
    && (forall i :: 0 <= i < |order| ==> order[i] in executable)
    && done == AllOf(executable, finalized, unconfirmed, order, FinalizedExecuted)
    && doneUnfinalized == AllOf(executable, finalized, unconfirmed, order, UnfinalizedExecuted)
  }

  lemma GatherOne(executable: CommitObservations, finalized: map<ChainSelector, seq<SeqNum>>,
                  unconfirmed: map<ChainSelector, seq<SeqNum>>,
                  order: seq<ChainSelector>, done: seq<CommitData>, doneUnfinalized: seq<CommitData>, c: ChainSelector,
                  kept: seq<CommitData>, fin: seq<CommitData>, unf: seq<CommitData>)
    requires c in executable && Gathered(executable, finalized, unconfirmed, order, done, doneUnfinalized)
    requires Classified(executable[c], SetOf(NumbersOf(finalized, c)), SetOf(NumbersOf(unconfirmed, c)), kept, fin, unf)
    ensures Gathered(executable, finalized, unconfirmed, order + [c], done + fin, doneUnfinalized + unf)
    ensures MarkedChain(executable, finalized, unconfirmed, c, kept)
  {
    OneMoreChain(executable, finalized, unconfirmed, order, c, FinalizedExecuted);
    OneMoreChain(executable, finalized, unconfirmed, order, c, UnfinalizedExecuted);
  }

  /** The buckets of all chains: remaining reports by chain, the others in one list each. */
  method RemoveUnconfirmedAndFinalizedMessages(executable: CommitObservations,
                                               finalized: map<ChainSelector, seq<SeqNum>>,
                                               unconfirmed: map<ChainSelector, seq<SeqNum>>)
    returns (remaining: CommitObservations, done: seq<CommitData>, doneUnfinalized: seq<CommitData>,
             ghost order: seq<ChainSelector>)
    requires NonEmptyRanges(executable) && SliceSized(finalized) && SliceSized(unconfirmed)
    ensures IsOrder(executable, order) && remaining.Keys == executable.Keys
    ensures forall c :: c in executable ==> MarkedChain(executable, finalized, unconfirmed, c, remaining[c])
    ensures Gathered(executable, finalized, unconfirmed, order, done, doneUnfinalized)
  {
    remaining, done, doneUnfinalized, order := map[], [], [], [];
    var rest := executable.Keys;
    while rest != {}
      invariant rest <= executable.Keys && remaining.Keys == executable.Keys - rest
      invariant NoDuplicates(order) && forall c :: c in order <==> c in executable && c !in rest
      invariant forall c :: c in remaining ==> MarkedChain(executable, finalized, unconfirmed, c, remaining[c])
      invariant Gathered(executable, finalized, unconfirmed, order, done, doneUnfinalized)
    {
      var c :| c in rest;
      rest := rest - {c};
      var kept, fin, unf := ClassifyChain(executable[c], NumbersOf(finalized, c), NumbersOf(unconfirmed, c));
      GatherOne(executable, finalized, unconfirmed, order, done, doneUnfinalized, c, kept, fin, unf);
      done, doneUnfinalized := done + fin, doneUnfinalized + unf;
      remaining := remaining[c := kept];
      order := order + [c];
    }
  }
}
