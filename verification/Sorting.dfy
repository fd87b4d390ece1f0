/** Sorting of slices, counting in sequences, and the f-th smallest element. */
module Sorting {
  import opened CcipTypes

  /** Strictly increasing in a key: sorted, and no key twice. */
  ghost predicate StrictlyIncreasing(s: seq<int>) {
    forall i, j :: 0 <= i < j < |s| ==> s[i] < s[j]
  }

  ghost predicate NoDuplicates<T>(s: seq<T>) {
    forall i, j :: 0 <= i < j < |s| ==> s[i] != s[j]
  }

  /** The members of a sequence. */
  ghost function SetOf<T(!new)>(s: seq<T>): set<T> {
    set x | x in s
  }

  /** A non-empty finite set of numbers has a least member. */
  lemma {:induction false} LeastExists(s: set<SeqNum>) returns (m: SeqNum)
    requires s != {}
    ensures m in s && forall x :: x in s ==> m <= x
  {
    m :| m in s;
    var rest := s - {m};
    if rest != {} {
      var m' := LeastExists(rest);
      assert s == rest + {m};
      if m' < m {
        m := m';
      }
    } else {
      assert s == {m};
    }
  }

  /** The least member of a non-empty set. */
  function Least(s: set<SeqNum>): (m: SeqNum)
    requires s != {}
    ensures m in s && forall x :: x in s ==> m <= x
  {
    assert exists m :: m in s && forall x :: x in s ==> m <= x by {
      var m := LeastExists(s);
    }
    var m :| m in s && forall x :: x in s ==> m <= x;
    m
  }

  /** The members of a set in ascending order. */
  function Ascending(s: set<SeqNum>): (r: seq<SeqNum>)
    ensures |r| == |s|
  {
    if s == {} then [] else [Least(s)] + Ascending(s - {Least(s)})
  }

  lemma {:induction false} AscendingMembers(s: set<SeqNum>)
    ensures forall x :: x in Ascending(s) <==> x in s
  {
    if s != {} {
      var m := Least(s);
      AscendingMembers(s - {m});
      forall x
        ensures x in Ascending(s) <==> x in s
      {
        assert x in Ascending(s) <==> x == m || x in Ascending(s - {m});
      }
    }
  }

  lemma {:induction false} AscendingOrder(s: set<SeqNum>)
    ensures StrictlyIncreasing(Ascending(s))
  {
    if s != {} {
      var m := Least(s);
      var rest := Ascending(s - {m});
      AscendingOrder(s - {m});
      AscendingMembers(s - {m});
      assert forall i :: 0 <= i < |rest| ==> rest[i] in s - {m};
      assert Ascending(s) == [m] + rest;
    }
  }

  /** Ascending by key: sorted, and no key twice. */
  ghost predicate AscendingBy<T>(s: seq<T>, key: T -> int) {
    forall i, j :: 0 <= i < j < |s| ==> key(s[i]) < key(s[j])
  }

  ghost predicate SortedBy<T>(s: seq<T>, key: T -> int) {
    forall i, j :: 0 <= i < j < |s| ==> key(s[i]) <= key(s[j])
  }

  /** sort.Slice by an integer key. */
  function SortBy<T>(s: seq<T>, key: T -> int): seq<T> {
    if s == [] then [] else InsertBy(SortBy(s[..|s| - 1], key), s[|s| - 1], key)
  }

  function InsertBy<T>(s: seq<T>, x: T, key: T -> int): (r: seq<T>) {
    if s == [] then [x]
    else if key(s[|s| - 1]) <= key(x) then s + [x]
    else InsertBy(s[..|s| - 1], x, key) + [s[|s| - 1]]
  }

  lemma {:induction false} InsertByMembers<T>(s: seq<T>, x: T, key: T -> int)
    ensures multiset(InsertBy(s, x, key)) == multiset(s) + multiset{x}
  {
    if s != [] {
      var front, last := s[..|s| - 1], s[|s| - 1];
      assert s == front + [last];
      InsertByMembers(front, x, key);
    }
  }

  lemma {:induction false} InsertBySorted<T>(s: seq<T>, x: T, key: T -> int)
    requires SortedBy(s, key)
    ensures SortedBy(InsertBy(s, x, key), key)
  {
    if s != [] && key(s[|s| - 1]) > key(x) {
      var front, last := s[..|s| - 1], s[|s| - 1];
      var r := InsertBy(front, x, key);
      InsertBySorted(front, x, key);
      InsertByMembers(front, x, key);
      forall i | 0 <= i < |r|
        ensures key(r[i]) <= key(last)
      {
        assert r[i] in multiset(r);
        assert r[i] == x || r[i] in front;
      }
    }
  }

  /** Sorting permutes the list and puts the keys in order. */
  lemma {:induction false} SortByCorrect<T>(s: seq<T>, key: T -> int)
    ensures multiset(SortBy(s, key)) == multiset(s)
    ensures SortedBy(SortBy(s, key), key)
  {
    if s != [] {
      var front, last := s[..|s| - 1], s[|s| - 1];
      assert s == front + [last];
      SortByCorrect(front, key);
      InsertByMembers(SortBy(front, key), last, key);
      InsertBySorted(SortBy(front, key), last, key);
    }
  }

  /** Sorting keeps the members. */
  lemma SortByMembers<T>(s: seq<T>, key: T -> int)
    ensures |SortBy(s, key)| == |s|
    ensures forall x :: x in SortBy(s, key) <==> x in s
  {
    SortByCorrect(s, key);
    var r := SortBy(s, key);
    assert |r| == |multiset(r)| && |s| == |multiset(s)|;
    forall x
      ensures x in r <==> x in s
    {
      assert x in r <==> x in multiset(r);
      assert x in s <==> x in multiset(s);
    }
  }

  lemma Twice<T>(s: seq<T>, i: nat, j: nat)
    requires i < j < |s| && s[i] == s[j]
    ensures multiset(s)[s[i]] >= 2
  {
    assert s == s[..j] + s[j..];
    assert s[i] in s[..j] && s[j] in s[j..];
  }

  lemma DistinctAfterPermuting<T>(s: seq<T>, r: seq<T>, key: T -> int, i: nat, j: nat)
    requires forall i, j :: 0 <= i < j < |s| ==> key(s[i]) != key(s[j])
    requires multiset(r) == multiset(s)
    requires i < j < |r|
    ensures key(r[i]) != key(r[j])
  {
    assert r[i] in multiset(s) && r[j] in multiset(s);
    var a :| 0 <= a < |s| && s[a] == r[i];
    var b :| 0 <= b < |s| && s[b] == r[j];
    if a == b {
      Twice(r, i, j);
      OnceOnly(s, r[i]);
    }
  }

  /** Sorting a list without repeated keys is ascending. */
  lemma SortByDistinct<T>(s: seq<T>, key: T -> int)
    requires forall i, j :: 0 <= i < j < |s| ==> key(s[i]) != key(s[j])
    ensures AscendingBy(SortBy(s, key), key)
  {
    var r := SortBy(s, key);
    SortByCorrect(s, key);
    forall i, j | 0 <= i < j < |r|
      ensures key(r[i]) < key(r[j])
    {
      DistinctAfterPermuting(s, r, key, i, j);
    }
  }

  lemma {:induction false} OnceOnly<T>(s: seq<T>, x: T)
    requires NoDuplicates(s)
    ensures multiset(s)[x] <= 1
  {
    if s != [] {
      var front, last := s[..|s| - 1], s[|s| - 1];
      OnceOnly(front, x);
      assert s == front + [last];
      if x == last {
        assert x !in front;
      }
    }
  }

  /** Two sequences ascending by the same key and with the same members are equal. */
  lemma {:induction false} AscendingByUnique<T>(a: seq<T>, b: seq<T>, key: T -> int)
    requires AscendingBy(a, key) && AscendingBy(b, key)
    requires forall i :: 0 <= i < |a| ==> a[i] in b
    requires forall i :: 0 <= i < |b| ==> b[i] in a
    ensures a == b
  {
    if a == [] {
      assert |b| == 0;
    } else {
      assert a[0] in b;
      assert a[0] == b[0];
      AscendingByUnique(a[1..], b[1..], key);
      assert a == [a[0]] + a[1..];
      assert b == [b[0]] + b[1..];
    }
  }

  // ---------- counting ----------

  function CountIf<V>(s: seq<V>, p: V -> bool): nat {
    if s == [] then 0 else CountIf(s[..|s| - 1], p) + if p(s[|s| - 1]) then 1 else 0
  }

  lemma {:induction false} CountIfConcat<V>(a: seq<V>, b: seq<V>, p: V -> bool)
    ensures CountIf(a + b, p) == CountIf(a, p) + CountIf(b, p)
  {
    if b == [] {
      assert a + b == a;
    } else {
      assert (a + b)[..|a + b| - 1] == a + b[..|b| - 1];
      CountIfConcat(a, b[..|b| - 1], p);
    }
  }

  lemma {:induction false} CountIfMultiplicity<V>(s: seq<V>, v: V)
    ensures CountIf(s, w => w == v) == multiset(s)[v]
  {
    if s != [] {
      CountIfMultiplicity(s[..|s| - 1], v);
      assert s == s[..|s| - 1] + [s[|s| - 1]];
    }
  }

  lemma {:induction false} CountIfAll<V>(s: seq<V>, p: V -> bool)
    requires forall i :: 0 <= i < |s| ==> p(s[i])
    ensures CountIf(s, p) == |s|
  {
    if s != [] {
      CountIfAll(s[..|s| - 1], p);
    }
  }

  /** A subset has no more members. */
  lemma {:induction false} SubsetSize<T>(a: set<T>, b: set<T>)
    requires a <= b
    ensures |a| <= |b|
  {
    if a != {} {
      var x :| x in a;
      SubsetSize(a - {x}, b - {x});
    }
  }

  // ---------- the f-th smallest ----------

  /** slices.Sort on numbers. */
  function Sort(s: seq<SeqNum>): (r: seq<SeqNum>)
    ensures |r| == |s|
  {
    var r := SortBy(s, (v: SeqNum) => v as int);
    assert |r| == |s| by { SortByMembers(s, (v: SeqNum) => v as int); }
    r
  }

  lemma SortCorrect(s: seq<SeqNum>)
    ensures multiset(Sort(s)) == multiset(s)
    ensures SortedBy(Sort(s), (v: SeqNum) => v as int)
  {
    SortByCorrect(s, (v: SeqNum) => v as int);
  }

  lemma {:induction false} InsertByCount<T>(s: seq<T>, x: T, key: T -> int, p: T -> bool)
    ensures CountIf(InsertBy(s, x, key), p) == CountIf(s, p) + if p(x) then 1 else 0
  {
    if s == [] {
      assert InsertBy(s, x, key) == [x];
    } else if key(s[|s| - 1]) <= key(x) {
      assert (s + [x])[..|s|] == s;
    } else {
      InsertByCount(s[..|s| - 1], x, key, p);
      var r := InsertBy(s[..|s| - 1], x, key) + [s[|s| - 1]];
      assert r[..|r| - 1] == InsertBy(s[..|s| - 1], x, key);
    }
  }

  /** Sorting does not change how many elements have a property. */
  lemma {:induction false} SortByCount<T>(s: seq<T>, key: T -> int, p: T -> bool)
    ensures CountIf(SortBy(s, key), p) == CountIf(s, p)
  {
    if s != [] {
      SortByCount(s[..|s| - 1], key, p);
      InsertByCount(SortBy(s[..|s| - 1], key), s[|s| - 1], key, p);
    }
  }

  lemma PrefixCount(s: seq<SeqNum>, k: nat, p: SeqNum -> bool)
    requires k <= |s|
    requires forall i :: 0 <= i < k ==> p(s[i])
    ensures CountIf(s, p) >= k
  {
    assert s == s[..k] + s[k..];
    CountIfConcat(s[..k], s[k..], p);
    CountIfAll(s[..k], p);
  }

  lemma SuffixCount(s: seq<SeqNum>, k: nat, p: SeqNum -> bool)
    requires k <= |s|
    requires forall i :: k <= i < |s| ==> p(s[i])
    ensures CountIf(s, p) >= |s| - k
  {
    assert s == s[..k] + s[k..];
    CountIfConcat(s[..k], s[k..], p);
    CountIfAll(s[k..], p);
  }

  lemma SortedPick(r: seq<SeqNum>, f: nat, low: SeqNum -> bool, high: SeqNum -> bool)
    requires SortedBy(r, (v: SeqNum) => v as int) && f < |r|
    requires forall i :: 0 <= i < |r| ==> (low(r[i]) <==> r[i] <= r[f])
    requires forall i :: 0 <= i < |r| ==> (high(r[i]) <==> r[i] >= r[f])
    ensures CountIf(r, low) >= f + 1
    ensures CountIf(r, high) >= |r| - f
  {
    PrefixCount(r, f + 1, low);
    SuffixCount(r, f, high);
  }

  /** The f-th smallest value (from zero) has f + 1 values at or below it and |s| - f at or above it. */
  lemma OrderStatistic(s: seq<SeqNum>, f: nat, pick: SeqNum)
    requires f < |s| && pick == Sort(s)[f]
    ensures CountIf(s, (v: SeqNum) => v <= pick) >= f + 1
    ensures CountIf(s, (v: SeqNum) => v >= pick) >= |s| - f
  {
    var low, high := (v: SeqNum) => v <= pick, (v: SeqNum) => v >= pick;
    SortCorrect(s);
    SortByCount(s, (v: SeqNum) => v as int, low);
    SortByCount(s, (v: SeqNum) => v as int, high);
    SortedPick(Sort(s), f, low, high);
  }

  lemma {:induction false} CountIfMore(s: seq<SeqNum>, p: SeqNum -> bool, q: SeqNum -> bool)
    requires forall v: SeqNum :: p(v) ==> q(v)
    ensures CountIf(s, p) <= CountIf(s, q)
  {
    if s != [] {
      CountIfMore(s[..|s| - 1], p, q);
    }
  }

  lemma {:induction false} CountIfApart(s: seq<SeqNum>, p: SeqNum -> bool, q: SeqNum -> bool)
    requires forall v: SeqNum :: !(p(v) && q(v))
    ensures CountIf(s, p) + CountIf(s, q) <= |s|
  {
    if s != [] {
      CountIfApart(s[..|s| - 1], p, q);
    }
  }

  /** The f-th smallest value is below x exactly if more than f values are. */
  lemma PickBelow(s: seq<SeqNum>, f: nat, x: SeqNum, below: SeqNum -> bool)
    requires f < |s| && forall v: SeqNum :: below(v) <==> v < x
    ensures Sort(s)[f] < x <==> CountIf(s, below) > f
  {
    var pick := Sort(s)[f];
    OrderStatistic(s, f, pick);
    if pick < x {
      CountIfMore(s, (v: SeqNum) => v <= pick, below);
    } else {
      CountIfApart(s, below, (v: SeqNum) => v >= pick);
    }
  }
}
