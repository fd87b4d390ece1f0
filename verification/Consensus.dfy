/** The counting objects and the map-wise consensus helpers both plugins share. The Go objects key
    their caches by a hash of the data; here the data is its own key. */
module Consensus {
  import opened CcipTypes
  import opened Sorting

  function FPlus1(f: nat): nat { f + 1 }

  function TwoFPlus1(f: nat): nat { 2 * f + 1 }

  /** A threshold for every key, or one for some keys. */
  datatype MultiThreshold<K> = ConstantThreshold(t: nat) | PerKey(m: map<K, nat>) {
    function Get(k: K): Option<nat> {
      match this
      case ConstantThreshold(t) => Some(t)
      case PerKey(m) => if k in m then Some(m[k]) else None
    }
  }

  /** v was voted for, at least th times. */
  ghost predicate Winner<T>(votes: seq<T>, th: nat, v: T) {
    v in votes && multiset(votes)[v] >= th
  }

  /** v is the one and only value that reached th votes. */
  ghost predicate Agreed<T(!new)>(votes: seq<T>, th: nat, v: T) {
    Winner(votes, th, v) && forall w :: Winner(votes, th, w) ==> w == v
  }

  /** Counts how often each value was added. */
  class MinObservation<T(==,!new)> {
    const threshold: nat
    var cache: map<T, nat>
    ghost var seen: seq<T>

    ghost predicate Valid()
      reads this
    {
      && (forall t :: t in cache <==> t in seen)
      && forall t :: t in cache ==> cache[t] == multiset(seen)[t]
    }

    constructor (threshold: nat)
      ensures Valid() && seen == [] && this.threshold == threshold
    {
      this.threshold, cache, seen := threshold, map[], [];
    }

    method Add(data: T)
      requires Valid()
      modifies this
      ensures Valid() && seen == old(seen) + [data]
    {
      cache := cache[data := if data in cache then cache[data] + 1 else 1];
      seen := seen + [data];
    }

    /** Every value with at least threshold additions, once each, in no particular order. */
    method GetValid() returns (validated: seq<T>)
      requires Valid()
      ensures NoDuplicates(validated)
      ensures forall t :: t in validated <==> Winner(seen, threshold, t)
    {
      validated := [];
      var rest := cache.Keys;
      while rest != {}
        invariant rest <= cache.Keys
        invariant NoDuplicates(validated)
        invariant forall t :: t in validated <==> t in cache && t !in rest && cache[t] >= threshold
      {
        var t :| t in rest;
        if cache[t] >= threshold {
          validated := validated + [t];
        }
        rest := rest - {t};
      }
    }
  }

  /** Remembers which oracles added each value. */
  class OracleMinObservation<T(==,!new)> {
    const threshold: nat
    var cache: map<T, set<OracleId>>
    ghost var seen: set<(T, OracleId)>

    ghost predicate Valid()
      reads this
    {
      && (forall t :: t in cache ==> cache[t] != {})
      && forall t, o :: (t, o) in seen <==> t in cache && o in cache[t]
    }

    constructor (threshold: nat)
      ensures Valid() && seen == {} && this.threshold == threshold
    {
      this.threshold, cache, seen := threshold, map[], {};
    }

    method Add(data: T, oracle: OracleId)
      requires Valid()
      modifies this
      ensures Valid() && seen == old(seen) + {(data, oracle)}
    {
      cache := cache[data := (if data in cache then cache[data] else {}) + {oracle}];
      seen := seen + {(data, oracle)};
    }

    /** Every value that at least threshold different oracles added, once each, in no particular order. */
    method GetValid() returns (validated: seq<T>)
      requires Valid()
      ensures NoDuplicates(validated)
      ensures forall t :: t in validated <==> OracleWinner(seen, threshold, t)
    {
      validated := [];
      var rest := cache.Keys;
      while rest != {}
        invariant rest <= cache.Keys
        invariant NoDuplicates(validated)
        invariant forall t :: t in validated <==> t in cache && t !in rest && |cache[t]| >= threshold
      {
        var t :| t in rest;
        if |cache[t]| >= threshold {
          validated := validated + [t];
        }
        rest := rest - {t};
      }
      forall t
        ensures t in validated <==> OracleWinner(seen, threshold, t)
      {
        if t in cache {
          assert VotersIn(seen, t) == cache[t];
        } else {
          assert VotersIn(seen, t) == {};
        }
      }
    }
  }

  /** The oracles that added t. */
  ghost function VotersIn<T(!new)>(seen: set<(T, OracleId)>, t: T): set<OracleId> {
    set p | p in seen && p.0 == t :: p.1
  }

  ghost predicate OracleWinner<T(!new)>(seen: set<(T, OracleId)>, th: nat, t: T) {
    VotersIn(seen, t) != {} && |VotersIn(seen, t)| >= th
  }

  /** For every key with a threshold, the value that alone reached it; no entry for any other key. */
  method GetConsensusMap<K(==), T(==,!new)>(items: map<K, seq<T>>, minObs: MultiThreshold<K>)
    returns (consensus: map<K, T>)
    ensures forall k :: k in consensus ==>
              k in items && minObs.Get(k).Some? && Agreed(items[k], minObs.Get(k).value, consensus[k])
    ensures forall k, v :: k in items && minObs.Get(k).Some? && Agreed(items[k], minObs.Get(k).value, v) ==>
              k in consensus && consensus[k] == v
  {
    consensus := map[];
    var rest := items.Keys;
    while rest != {}
      invariant rest <= items.Keys
      invariant forall k :: k in consensus ==> k !in rest
      invariant forall k :: k in consensus ==>
                  k in items && minObs.Get(k).Some? && Agreed(items[k], minObs.Get(k).value, consensus[k])
      invariant forall k, v :: k in items && k !in rest && minObs.Get(k).Some?
                               && Agreed(items[k], minObs.Get(k).value, v) ==>
                  k in consensus && consensus[k] == v
    {
      var k :| k in rest;
      rest := rest - {k};
      if minObs.Get(k).Some? {
        var winner := OnlyWinner(items[k], minObs.Get(k).value);
        if winner.Some? {
          consensus := consensus[k := winner.value];
        }
      }
    }
  }

  /** Counts the items of one key; a single winner is the consensus, none or several are not. */
  method OnlyWinner<T(==,!new)>(items: seq<T>, th: nat) returns (r: Option<T>)
    ensures r.Some? ==> Agreed(items, th, r.value)
    ensures r.None? ==> forall v :: !Agreed(items, th, v)
  {
    var obs := new MinObservation<T>(th);
    for i := 0 to |items|
      invariant fresh(obs) && obs.Valid() && obs.threshold == th
      invariant obs.seen == items[..i]
    {
      obs.Add(items[i]);
    }
    assert items[..|items|] == items;
    var valid := obs.GetValid();
    if |valid| != 1 {
      r := None;
      forall v
        ensures !Agreed(items, th, v)
      {
        if |valid| >= 2 {
          assert valid[0] in valid && valid[1] in valid;
        } else {
          assert v !in valid;
        }
      }
    } else {
      assert valid[0] in valid;
      assert forall w :: w in valid ==> w == valid[0];
      r := Some(valid[0]);
    }
  }

  /** Per key, the f-th smallest of at least 2f + 1 values; keys with an unknown or zero f are left out. */
  method GetOrderedConsensus<K(==)>(items: map<K, seq<SeqNum>>, minObs: map<K, nat>)
    returns (result: map<K, SeqNum>)
    ensures forall k :: k in result <==> k in items && k in minObs && minObs[k] > 0 && |items[k]| >= 2 * minObs[k] + 1
    ensures forall k :: k in result ==> result[k] == Sort(items[k])[minObs[k]]
  {
    result := map[];
    var rest := items.Keys;
    while rest != {}
      invariant rest <= items.Keys
      invariant forall k :: k in result <==>
                  k in items && k !in rest && k in minObs && minObs[k] > 0 && |items[k]| >= 2 * minObs[k] + 1
      invariant forall k :: k in result ==> result[k] == Sort(items[k])[minObs[k]]
    {
      var k :| k in rest;
      rest := rest - {k};
      if k !in minObs || minObs[k] == 0 || |items[k]| < 2 * minObs[k] + 1 {
        continue;
      }
      result := result[k := Sort(items[k])[minObs[k]]];
    }
  }

  /** Every f must be positive. */
  method ValidateFChain(fChain: map<ChainSelector, int>) returns (ok: bool)
    ensures ok <==> forall c :: c in fChain ==> fChain[c] > 0
  {
    var rest := fChain.Keys;
    while rest != {}
      invariant rest <= fChain.Keys
      invariant forall c :: c in fChain && c !in rest ==> fChain[c] > 0
    {
      var c :| c in rest;
      rest := rest - {c};
      if fChain[c] <= 0 {
        return false;
      }
    }
    return true;
  }
}
