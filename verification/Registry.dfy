/** The address and public-key registries. On chain both are append-only maps from consecutive ids
    (AddressRegistry.sol, BLSPublicKeyRegistry.sol); the client wrappers look ids up again from
    the registration events. One generic model serves both: they differ only in what counts as the
    zero entry. */
module Registry {
  import opened Wrappers
  import opened Bytes

  /** Entries in registration order; the id is a `uint256`. */
  type Entries<T> = s: seq<T> | |s| < TWO_256

  /** The contract's `lookup`: absent and zero entries revert. */
  function Lookup<T(==)>(entries: seq<T>, zero: T, id: nat): Option<T> {
    if id < |entries| && entries[id] != zero then Some(entries[id]) else None
  }

  /** The id in the last registration event for x. */
  function ReverseLookup<T(==)>(entries: seq<T>, x: T): (id: Option<nat>)
    ensures id.Some? <==> x in entries
    ensures id.Some? ==> id.value < |entries| && entries[id.value] == x
    ensures id.Some? ==> x !in entries[id.value + 1..]
  {
    if entries == [] then None
    else if entries[|entries| - 1] == x then Some(|entries| - 1)
    else
      var front := entries[..|entries| - 1];
      assert entries == front + [entries[|entries| - 1]];
      ReverseLookup(front, x)
  }

  /** An id found against one state of the registry resolves to the same entry in every later
      state, whatever has been registered since, unless that entry is the zero entry: the registry
      accepts zero but its `lookup` then refuses it. */
  lemma GrowthIsHarmless<T>(earlier: seq<T>, later: seq<T>, zero: T, x: T)
    requires earlier <= later && x in earlier
    ensures Lookup(later, zero, ReverseLookup(earlier, x).value) == if x == zero then None else Some(x)
  {
  }

  /** Registering an entry again changes the id the wrapper reports; the old one stays valid. */
  lemma ReRegistrationMovesId<T>(entries: seq<T>, zero: T, x: T)
    requires x in entries && x != zero
    ensures ReverseLookup(entries + [x], x) == Some(|entries|)
    ensures ReverseLookup(entries + [x], x) != ReverseLookup(entries, x)
    ensures Lookup(entries + [x], zero, ReverseLookup(entries, x).value) == Some(x)
  {
  }

  class RegistryWrapper<T(==)> {
    const zero: T
    var entries: Entries<T>

    constructor (zero: T)
      ensures this.zero == zero && entries == []
    {
      this.zero := zero;
      entries := [];
    }

    /** Appends the entry and reports the id assigned; fails when the ids are used up. */
    method Register(x: T) returns (id: Option<nat>)
      modifies this
      ensures id.Some? <==> |old(entries)| + 1 < TWO_256
      ensures entries == if id.Some? then old(entries) + [x] else old(entries)
      ensures id.Some? ==> id.value == |old(entries)|
    {
      if |entries| + 1 == TWO_256 {
        return None;
      }
      entries := entries + [x];
      id := ReverseLookup(entries, x);
    }

    /** Registers only an unknown entry; either way the id returned refers to the entry. */
    method RegisterIfNeeded(x: T) returns (id: Option<nat>)
      modifies this
      ensures old(entries) <= entries
      ensures x in old(entries) ==> entries == old(entries)
      ensures x !in old(entries) && id.Some? ==> entries == old(entries) + [x]
      ensures id.None? ==> entries == old(entries) && x !in entries
      ensures id.Some? ==> id.value < |entries| && entries[id.value] == x
    {
      id := ReverseLookup(entries, x);
      if id.None? {
        id := Register(x);
      }
    }
  }
}
