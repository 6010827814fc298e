/**
 * The key-value store under the containers (`IconScoreDatabase`), reduced to
 * what the containers rely on: one map from byte strings to byte strings.  A
 * handle on a sub-namespace is a byte prefix, and `get_sub_db(k)` on the
 * handle with prefix `p` is the handle with prefix `p + k`.  The real database
 * is not part of this model; this layout is an assumption about it.
 */
module Storage {
  import opened Wrappers
  import opened Utf8

  type Entries = map<Bytes, Bytes>

  function Lookup(m: Entries, key: Bytes): Option<Bytes> {
    if key in m then Some(m[key]) else None
  }

  /** `m1` and `m2` hold the same thing (or nothing) under `key`. */
  predicate SameAt(m1: Entries, m2: Entries, key: Bytes) {
    Lookup(m1, key) == Lookup(m2, key)
  }

  class Store {
    var entries: Entries

    constructor ()
      ensures entries == map[]
    {
      entries := map[];
    }

    function Get(key: Bytes): Option<Bytes>
      reads this
    {
      Lookup(entries, key)
    }

    method Put(key: Bytes, value: Bytes)
      modifies this
      ensures entries == old(entries)[key := value]
    {
      entries := entries[key := value];
    }
  }
}
