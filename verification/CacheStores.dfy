/** The stores behind the query cache's store interface (mdb/gm2c.go, CacheStore), as one type. */
module CacheStores {
  import opened Wrappers
  import opened CacheKeys
  import opened FreeStores
  import opened RedisCaches

  datatype CacheStore = Free(f: FreeStore<string>) | Redis(r: RedisCache)
  {
    ghost function Footprint(): set<object> {
      match this
      case Free(f) => {f}
      case Redis(r) => r.Footprint()
    }

    ghost predicate Valid()
      reads Footprint()
    {
      Redis? ==> r.Valid()
    }

    ghost function Entries(): map<string, string>
      reads Footprint()
    {
      match this
      case Free(f) => f.entries
      case Redis(r) => r.entries
    }

    /** The store takes this payload under this key. */
    ghost predicate Takes(key: string, data: string) {
      Redis? ==> r.Storable(data) && IsTableKey(key, r.pre)
    }

    method Get(key: string) returns (data: Option<string>)
      requires Valid()
      modifies Footprint()
      ensures Valid()
      ensures Entries() == old(Entries()) || Entries() == old(Entries()) - {key}
      ensures data == if key in Entries() then Some(Entries()[key]) else None
    {
      match this
      case Free(f) => data := f.Get(key);
      case Redis(r) => data := r.Get(key);
    }

    method Set(key: string, data: string, ttl: Option<int>)
      requires Valid() && Takes(key, data)
      modifies Footprint()
      ensures Valid() && Entries() == old(Entries())[key := data]
    {
      match this
      case Free(f) => f.Set(key, data);
      case Redis(r) => r.Set(key, data, ttl);
    }

    method Del(key: string)
      requires Valid()
      modifies Footprint()
      ensures Valid() && Entries() == old(Entries()) - {key}
    {
      match this
      case Free(f) => f.Del(key);
      case Redis(r) => r.Del(key);
    }

    method DropPrefix(prefix: string, ghost table: string)
      requires Valid() && (Redis? ==> ColonFree(table) && IsTablePrefix(prefix, r.pre, table))
      modifies Footprint()
      ensures Valid() && Entries() == WithoutPrefixes(old(Entries()), [prefix])
    {
      match this
      case Free(f) => f.DropPrefix([prefix]);
      case Redis(r) => r.DropPrefix(prefix, table);
    }

    /** What the store loses on its own: entries of the memory cache, whole hashes of Redis, and what expires. */
    method Meanwhile(lost: set<string>, seconds: nat, collect: bool)
      requires Valid()
      modifies Footprint()
      ensures Valid() && forall k | k in Entries() :: k in old(Entries()) && Entries()[k] == old(Entries())[k]
    {
      match this
      case Free(f) => f.Evict(lost);
      case Redis(r) =>
        r.Lose(lost);
        r.Tick(seconds);
        if collect {
          r.Collect();
        }
    }
  }
}
