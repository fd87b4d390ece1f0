/** Values shared by the commit and the execute plugin. Chain selectors and sequence numbers are
    64-bit unsigned integers; every place where the Go code wraps around does so explicitly here. */
module CcipTypes {

  const UINT64_MODULUS: int := 0x1_0000_0000_0000_0000

  const UINT32_MODULUS: int := 0x1_0000_0000

  /** int32(x): the lowest 32 bits read as a signed number. */
  function Int32(x: int): int {
    var d := x % UINT32_MODULUS;
    if d < 0x8000_0000 then d else d - UINT32_MODULUS
  }

  /** A chain selector, uint64. */
  type ChainSelector = x: int | 0 <= x < 0x1_0000_0000_0000_0000

  /** A message sequence number, uint64. */
  type SeqNum = x: int | 0 <= x < 0x1_0000_0000_0000_0000

  const MAX_SEQ_NUM: SeqNum := 0xFFFF_FFFF_FFFF_FFFF

  type OracleId = nat

  /** A 32-byte word read as a number; the empty word is zero. */
  type Bytes32 = nat

  const EMPTY_BYTES32: Bytes32 := 0

  /** An address of unspecified encoding; the zero-or-empty address is zero. */
  type Address = nat

  const EMPTY_ADDRESS: Address := 0

  datatype Option<+T> = None | Some(value: T)

  /** The closed range [start, end]. With start > end it holds no number. */
  datatype SeqNumRange = SeqNumRange(start: SeqNum, end: SeqNum) {

    predicate Contains(s: SeqNum) {
      start <= s <= end
    }

    predicate Overlaps(other: SeqNumRange) {
      start <= other.end && other.start <= end
    }

    /** int(End - Start + 1): the subtraction wraps at 64 bits and the result is read as signed. */
    function Length(): int {
      var d := (end - start + 1) % UINT64_MODULUS;
      if d < 0x8000_0000_0000_0000 then d else d - UINT64_MODULUS
    }

    /** The numbers in the range. */
    ghost function Nums(): set<SeqNum> {
      set s: SeqNum | start <= s <= end && Contains(s)
    }

    /** How many numbers the range holds, without any wrap-around. */
    ghost function Size(): nat {
      if start <= end then end - start + 1 else 0
    }

    /** The first n numbers of the range; both 64-bit sums may wrap. */
    function Limit(n: nat): SeqNumRange {
      var count := (end - start + 1) % UINT64_MODULUS;
      if count == 0 || count <= n then this
      else
        var newEnd := (start + n - 1) % UINT64_MODULUS;
        if newEnd > end then this else SeqNumRange(start, newEnd)
    }
  }

  /** A range has as many members as its size says. */
  lemma {:induction false} NumsSize(r: SeqNumRange)
    ensures |r.Nums()| == r.Size()
    decreases r.Size()
  {
    if r.start > r.end {
      assert r.Nums() == {};
    } else if r.start == r.end {
      assert r.Nums() == {r.start};
    } else {
      var rest := SeqNumRange(r.start + 1, r.end);
      NumsSize(rest);
      assert r.Nums() == {r.start} + rest.Nums();
    }
  }

  /** Length agrees with the size unless the range holds 2^63 numbers or more, or is empty with a
      start more than one above its end. */
  lemma LengthIsSize(r: SeqNumRange)
    ensures r.start <= r.end + 1 && r.Size() < 0x8000_0000_0000_0000 ==> r.Length() == r.Size()
    ensures r.start <= r.end && r.Size() >= 0x8000_0000_0000_0000 ==> r.Length() <= 0
  {
  }

  /** Ranges that do not overlap share no number; non-empty ranges that overlap do. */
  lemma OverlapMeansShared(a: SeqNumRange, b: SeqNumRange)
    ensures !a.Overlaps(b) ==> a.Nums() !! b.Nums()
    ensures a.start <= a.end && b.start <= b.end && a.Overlaps(b) ==> exists s :: s in a.Nums() && s in b.Nums()
  {
    if a.start <= a.end && b.start <= b.end && a.Overlaps(b) {
      var s: SeqNum := if a.start < b.start then b.start else a.start;
      assert s in a.Nums() && s in b.Nums();
    }
  }

  /** Limiting a non-empty range that starts at one or later to at least one number keeps its
      start, stays inside it, and leaves the smaller of the two sizes. */
  lemma LimitIsPrefix(r: SeqNumRange, n: nat)
    requires 1 <= r.start <= r.end
    requires 1 <= n < UINT64_MODULUS
    ensures r.Limit(n).start == r.start
    ensures r.Limit(n).start <= r.Limit(n).end <= r.end
    ensures r.Limit(n).Size() == if r.Size() <= n then r.Size() else n
  {
    assert (r.end - r.start + 1) % UINT64_MODULUS == r.Size();
  }
}
