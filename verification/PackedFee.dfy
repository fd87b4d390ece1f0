/** The two components of a gas price in one number: the data availability fee above bit 112, the
    execution fee below it. */
module PackedFee {

  datatype Components = Components(execution: nat, dataAvailability: nat)

  function Pow2(n: nat): (r: nat)
    ensures r > 0
  {
    if n == 0 then 1 else 2 * Pow2(n - 1)
  }

  /** Bitwise and. */
  function And(x: nat, y: nat): nat {
    if x == 0 || y == 0 then 0 else 2 * And(x / 2, y / 2) + (x % 2) * (y % 2)
  }

  /** Bitwise or. */
  function Or(x: nat, y: nat): nat {
    if x == 0 then y else if y == 0 then x
    else 2 * Or(x / 2, y / 2) + if x % 2 == 1 || y % 2 == 1 then 1 else 0
  }

  function Lsh(x: nat, n: nat): nat { x * Pow2(n) }

  function Rsh(x: nat, n: nat): nat { Quotient(x, Pow2(n)) }

  function Quotient(x: nat, m: nat): nat
    requires m > 0
  {
    x / m
  }

  /** Sets bit n. */
  function SetBit(x: nat, n: nat): nat { Or(x, Pow2(n)) }

  // ---------- what the bit operations compute ----------

  lemma HalfOfMultiple(d: nat, n: nat, e: nat)
    requires n > 0 && e < Pow2(n)
    ensures (d * Pow2(n) + e) / 2 == d * Pow2(n - 1) + e / 2
    ensures (d * Pow2(n) + e) % 2 == e % 2
    ensures e / 2 < Pow2(n - 1)
  {
    assert d * Pow2(n) == 2 * (d * Pow2(n - 1));
  }

  /** Masking with n ones takes the n lowest bits. */
  lemma {:induction false} AndOnes(d: nat, e: nat, n: nat)
    requires e < Pow2(n)
    ensures And(d * Pow2(n) + e, Pow2(n) - 1) == e
  {
    var x := d * Pow2(n) + e;
    if n > 0 {
      HalfOfMultiple(d, n, e);
      AndOnes(d, e / 2, n - 1);
      assert (Pow2(n) - 1) / 2 == Pow2(n - 1) - 1 && (Pow2(n) - 1) % 2 == 1;
    }
  }

  /** Where no bits meet, or is addition. */
  lemma {:induction false} OrDisjoint(d: nat, e: nat, n: nat)
    requires e < Pow2(n)
    ensures Or(d * Pow2(n), e) == d * Pow2(n) + e
    ensures Or(e, d * Pow2(n)) == d * Pow2(n) + e
  {
    if n > 0 {
      HalfOfMultiple(d, n, 0);
      HalfOfMultiple(d, n, e);
      OrDisjoint(d, e / 2, n - 1);
    }
  }

  lemma Split(x: nat, m: nat)
    requires m > 0
    ensures x == Quotient(x, m) * m + x % m && x % m < m
  {
  }

  lemma QuotientOf(d: nat, e: nat, m: nat)
    requires e < m
    ensures (d * m + e) / m == d && (d * m + e) % m == e
  {
    var x := d * m + e;
    Split(x, m);
    assert (x / m - d) * m == e - x % m;
    MultipleIsFar(x / m - d, m);
  }

  lemma MultipleIsFar(k: int, m: int)
    requires m > 0
    ensures k >= 1 ==> k * m >= m
    ensures k <= -1 ==> k * m <= -m
  {
  }

  // ---------- packing ----------

  /** The loop that sets the bits of the mask one by one. */
  method Ones(n: nat) returns (ones: nat)
    ensures ones == Pow2(n) - 1
  {
    ones := 0;
    for i := 0 to n
      invariant ones == Pow2(i) - 1
    {
      OrDisjoint(1, ones, i);
      ones := SetBit(ones, i);
    }
  }

  /** The components of a packed fee with the given number of bits for the execution fee: remainder
      and quotient. */
  function Unpacked(packed: nat, bits: nat): Components {
    Components(packed % Pow2(bits), Quotient(packed, Pow2(bits)))
  }

  method Unpack(packed: nat, bits: nat) returns (c: Components)
    ensures c == Unpacked(packed, bits)
  {
    var ones := Ones(bits);
    var execFee := And(packed, ones);
    var daFee := Rsh(packed, bits);
    Split(packed, Pow2(bits));
    AndOnes(Quotient(packed, Pow2(bits)), packed % Pow2(bits), bits);
    return Components(execFee, daFee);
  }

  function Packed(c: Components, bits: nat): nat {
    Or(Lsh(c.dataAvailability, bits), c.execution)
  }

  /** The layout in use has 112 bits. */
  method FromPackedFee(packedFee: nat) returns (c: Components)
    ensures c == Unpacked(packedFee, 112)
  {
    c := Unpack(packedFee, 112);
  }

  function FeeComponentsToPackedFee(c: Components): nat {
    Packed(c, 112)
  }

  /** Packing what was unpacked gives the number back. */
  lemma PackUnpacked(packed: nat, bits: nat)
    ensures Packed(Unpacked(packed, bits), bits) == packed
  {
    Split(packed, Pow2(bits));
    PackParts(Quotient(packed, Pow2(bits)), packed % Pow2(bits), bits, Unpacked(packed, bits));
  }

  lemma PackParts(q: nat, r: nat, bits: nat, c: Components)
    requires r < Pow2(bits) && c == Components(r, q)
    ensures Packed(c, bits) == q * Pow2(bits) + r
  {
    OrDisjoint(q, r, bits);
  }

  lemma FitsTwice(d: nat, e: nat, m: nat)
    requires e < m
    ensures d * m + e < m * m <==> d < m
  {
    assert (m - d) * m == m * m - d * m;
    MultipleIsFar(m - d, m);
  }

  /** Unpacking what was packed gives the components back exactly if the execution fee fits its bits;
      then the whole fits twice as many bits exactly if the data availability fee fits too. */
  lemma UnpackPacked(c: Components, bits: nat)
    ensures Unpacked(Packed(c, bits), bits) == c <==> c.execution < Pow2(bits)
    ensures c.execution < Pow2(bits) ==>
              (Packed(c, bits) < Pow2(bits) * Pow2(bits) <==> c.dataAvailability < Pow2(bits))
  {
    var m := Pow2(bits);
    if c.execution < m {
      OrDisjoint(c.dataAvailability, c.execution, bits);
      QuotientOf(c.dataAvailability, c.execution, m);
      FitsTwice(c.dataAvailability, c.execution, m);
    }
  }

  /** Both round trips for the layout in use. */
  lemma FeeRoundTrip(c: Components, packedFee: nat)
    ensures FeeComponentsToPackedFee(Unpacked(packedFee, 112)) == packedFee
    ensures Unpacked(FeeComponentsToPackedFee(c), 112) == c <==> c.execution < Pow2(112)
  {
    PackUnpacked(packedFee, 112);
    UnpackPacked(c, 112);
  }
}
