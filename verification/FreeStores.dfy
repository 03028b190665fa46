/**
 The flat in-memory store behind the query cache (mdb/storage.go, FreeStore).

 The cache library underneath may lose any entry at any time; Evict is that step.
 Expiry is a loss of the same kind, so time does not appear here.
 */
module FreeStores {
  import opened Wrappers

  predicate StartsWithOne(key: string, prefixes: seq<string>) {
    exists p | p in prefixes :: p <= key
  }

  lemma StartsWithSingle(key: string, prefix: string)
    ensures StartsWithOne(key, [prefix]) <==> prefix <= key
  {
    assert prefix in [prefix];
  }

  lemma StartsWithOneMore(key: string, prefixes: seq<string>, i: nat)
    requires i < |prefixes|
    ensures StartsWithOne(key, prefixes[..i + 1]) <==> StartsWithOne(key, prefixes[..i]) || prefixes[i] <= key
  {
    assert prefixes[..i + 1] == prefixes[..i] + [prefixes[i]];
    assert prefixes[i] in prefixes[..i + 1];
    if StartsWithOne(key, prefixes[..i]) {
      var p :| p in prefixes[..i] && p <= key;
      assert p in prefixes[..i + 1];
    }
  }

  /** What a flat map keeps when everything under the prefixes is dropped. */
  function WithoutPrefixes<V>(entries: map<string, V>, prefixes: seq<string>): map<string, V> {
    map k | k in entries && !StartsWithOne(k, prefixes) :: entries[k]
  }

  class FreeStore<V(==)> {
    var entries: map<string, V>

    constructor ()
      ensures entries == map[]
    {
      entries := map[];
    }

    method Get(key: string) returns (data: Option<V>)
      ensures data == if key in entries then Some(entries[key]) else None
    {
      if key !in entries {
        return None;
      }
      return Some(entries[key]);
    }

    method Set(key: string, data: V)
      modifies this
      ensures entries == old(entries)[key := data]
    {
      entries := entries[key := data];
    }

    method Del(key: string)
      modifies this
      ensures entries == old(entries) - {key}
    {
      entries := entries - {key};
    }

    method ClearAll()
      modifies this
      ensures entries == map[]
    {
      entries := map[];
    }

    /** Walks every entry once, in any order, and deletes those under one of the prefixes. */
    method DropPrefix(prefixes: seq<string>)
      modifies this
      ensures entries == WithoutPrefixes(old(entries), prefixes)
    {
      var todo := entries.Keys;
      while todo != {}
        invariant todo <= old(entries).Keys
        invariant entries == map k | k in old(entries) && (k in todo || !StartsWithOne(k, prefixes)) :: old(entries)[k]
        decreases |todo|
      {
        var k :| k in todo;
        ghost var before := entries;
        for i := 0 to |prefixes|
          invariant entries == if StartsWithOne(k, prefixes[..i]) then before - {k} else before
        {
          StartsWithOneMore(k, prefixes, i);
          if prefixes[i] <= k {
            entries := entries - {k};
          }
        }
        assert prefixes[..|prefixes|] == prefixes;
        todo := todo - {k};
      }
    }

    /** The library drops entries on its own, for room or because they expired. */
    method Evict(keys: set<string>)
      modifies this
      ensures entries == old(entries) - keys
    {
      entries := entries - keys;
    }
  }
}
