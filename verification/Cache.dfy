// The query cache (cache.go): a map under keys that carry a namespace number, and one counter that makes
// every older entry unreachable. Eviction and expiry may remove any entry at any time.
module Cache {
  import opened Wrappers
  import opened Text
  import opened Decimal

  // The lookup key: the namespace is mixed in at the end.
  function Versioned(key: string, namespace: nat): string {
    key + "#v" + FormatNat(namespace)
  }

  // Distinct (key, namespace) pairs have distinct lookup keys, whatever characters the keys hold.
  lemma VersionedInjective(j: string, m: nat, k: string, n: nat)
    requires Versioned(j, m) == Versioned(k, n)
    ensures j == k && m == n
  {
    FormatNatRoundTrip(m);
    FormatNatRoundTrip(n);
    assert Versioned(j, m) == (j + "#") + ['v'] + FormatNat(m);
    assert Versioned(k, n) == (k + "#") + ['v'] + FormatNat(n);
    SplitAtLast('v', j + "#", FormatNat(m), k + "#", FormatNat(n));
    assert j == (j + "#")[..|j|] && k == (k + "#")[..|k|];
  }

  function Lookup<V>(entries: map<string, V>, key: string): Option<V> {
    if key in entries then Some(entries[key]) else None
  }

  class QueryCache<V> {
    var entries: map<string, V>
    var namespace: nat

    ghost predicate Valid()
      reads this
    {
      namespace < TWO64
    }

    constructor ()
      ensures Valid() && entries == map[] && namespace == 1
    {
      entries := map[];
      namespace := 1;
    }

    method VersionedKey(key: string) returns (k: string)
      requires Valid()
      ensures k == Versioned(key, namespace)
    {
      var version := Uint64ToString(namespace);
      k := key + "#v" + version;
    }

    method Get(key: string) returns (v: Option<V>)
      requires Valid()
      ensures v == Lookup(entries, Versioned(key, namespace))
    {
      var k := VersionedKey(key);
      v := if k in entries then Some(entries[k]) else None;
    }

    method Set(key: string, val: V)
      requires Valid()
      modifies this`entries
      ensures entries == old(entries)[Versioned(key, namespace) := val]
    {
      var k := VersionedKey(key);
      entries := entries[k := val];
    }

    // An unsigned 64-bit increment.
    method Bump()
      requires Valid()
      modifies this`namespace
      ensures Valid() && namespace == (old(namespace) + 1) % TWO64
    {
      namespace := (namespace + 1) % TWO64;
    }

    // Eviction of old entries and expiry by age, in any combination.
    method Vanish(keys: set<string>)
      modifies this`entries
      ensures entries == old(entries) - keys
    {
      entries := entries - keys;
    }
  }
}
