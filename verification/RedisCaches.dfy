/**
 The Redis store as the query cache uses it (mdb/storage-redis.go under mdb/gm2c.go).

 entries is what a store that is only written and invalidated by the cache would hold. Redis may
 hold less: an entry expires, a whole hash is evicted, and a prefix is dropped by containment,
 which takes other tables' hashes along. It never holds anything else, for tables that are not
 called "sep".
 */
module RedisCaches {
  import opened Wrappers
  import opened CacheKeys
  import opened RedisLayout
  import opened Strings
  import opened FreeStores
  import RS = RedisStores

  /** The tables whose hashes are found by their prefix. */
  predicate CacheableTable(table: string) {
    ColonFree(table) && table != "sep"
  }

  predicate IsTablePrefix(prefix: string, pre: string, table: string) {
    prefix == PrimaryKeyPrefix(pre, table) || prefix == SearchKeyPrefix(pre, table)
  }

  /** x is an id text, or an SQL text. */
  predicate IsKeyOf(key: string, pre: string, table: string, x: string) {
    key == PrimaryCacheKey(pre, table, x) || key == SearchCacheKey(pre, table, x)
  }

  ghost predicate IsTableKey(key: string, pre: string) {
    exists table, x :: CacheableTable(table) && IsKeyOf(key, pre, table, x)
  }

  lemma LongerHead(table: string, t: string, rest: string)
    requires ColonFree(table) && |t| < |table|
    ensures !(table <= t + SEPARATOR + rest)
  {
    assert (t + SEPARATOR + rest)[|t|] == ':';
  }

  /** A colon-free text that a longer one with a colon starts with ends before that colon. */
  lemma PrefixOfHead(table: string, t: string, rest: string)
    requires ColonFree(table) && table <= t + SEPARATOR + rest
    ensures table <= t
  {
    if |t| < |table| {
      LongerHead(table, t, rest);
    }
    assert (t + SEPARATOR + rest)[..|t|] == t;
  }

  /** A key that starts with a table's prefix lies in a hash whose name holds that prefix. */
  lemma HashHoldsPrefix(pre: string, table: string, prefix: string, key: string)
    requires ColonFree(table) && IsTablePrefix(prefix, pre, table) && IsTableKey(key, pre) && prefix <= key
    ensures var kf := GetKeyFieldOrNot(key, SEPARATOR); kf.Some? && Contains(kf.value.0, prefix)
  {
    var t, x :| CacheableTable(t) && IsKeyOf(key, pre, t, x);
    TableHashesFound(pre, t, x);
    var hash := GetKeyFieldOrNot(key, SEPARATOR).value.0;
    PrefixOfKey(pre, table, prefix, t, x, key);
    PrefixIsContained(hash, prefix);
  }

  lemma NotUnderPrefix(pre: string, table: string, prefix: string, key: string)
    requires ColonFree(table) && IsTablePrefix(prefix, pre, table) && IsTableKey(key, pre)
    requires var kf := GetKeyFieldOrNot(key, SEPARATOR); kf.Some? && !Contains(kf.value.0, prefix)
    ensures !(prefix <= key)
  {
    if prefix <= key {
      HashHoldsPrefix(pre, table, prefix, key);
    }
  }

  lemma PrefixOfKey(pre: string, table: string, prefix: string, t: string, x: string, key: string)
    requires ColonFree(table) && IsTablePrefix(prefix, pre, table) && IsKeyOf(key, pre, t, x) && prefix <= key
    ensures key == PrimaryCacheKey(pre, t, x) ==> prefix <= PrimaryKeyPrefix(pre, t)
    ensures key == SearchCacheKey(pre, t, x) ==> prefix <= SearchKeyPrefix(pre, t)
  {
    var n := |GLOBAL_PREFIX| + 1 + |pre| + 1;
    var start, kind := GLOBAL_PREFIX + ":" + pre + ":", [prefix[n]];
    assert key[n] == prefix[n];
    if key == PrimaryCacheKey(pre, t, x) {
      assert key[n] == 'p';
      AfterStart(start + "p:", table, prefix, t, x, key);
    }
    if key == SearchCacheKey(pre, t, x) {
      assert key[n] == 's';
      AfterStart(start + "s:", table, prefix, t, "[" + x + "]", key);
    }
  }

  lemma AfterStart(start: string, table: string, prefix: string, t: string, rest: string, key: string)
    requires ColonFree(table) && prefix == start + table && key == start + t + SEPARATOR + rest && prefix <= key
    ensures prefix <= start + t
  {
    assert key[|start|..] == t + SEPARATOR + rest;
    assert prefix[|start|..] == table && table == key[..|prefix|][|start|..];
    PrefixOfHead(table, t, rest);
  }

  class RedisCache {
    const store: RS.RedisStore
    const pre: string
    ghost var entries: map<string, string>

    /** Starts on a server that holds no key of the cache. */
    constructor (store: RS.RedisStore, pre: string)
      requires store.separator == SEPARATOR && store.codec.Valid() && forall k :: store.Live(k) == None
      ensures this.store == store && this.pre == pre && entries == map[] && Valid()
    {
      this.store, this.pre, entries := store, pre, map[];
    }

    ghost function Footprint(): set<object> {
      {this, store, store.server}
    }

    /** What Redis holds under a key is what the entries say, and the key is one of the cache's. */
    ghost predicate Valid()
      reads Footprint()
    {
      && store.separator == SEPARATOR && store.codec.Valid()
      && (forall k {:trigger store.Live(k)} ::
            store.Live(k).Some? ==> k in entries && entries[k] == store.Live(k).value && IsTableKey(k, pre))
    }

    /** Payloads the JSON codec of the store accepts. */
    ghost predicate Storable(data: string) {
      forall e :: store.codec.encode(RS.RedisValue(data, e)).Some?
    }

    /** A miss means that the entry has been lost, if it was ever there. */
    method Get(key: string) returns (data: Option<string>)
      requires Valid()
      modifies Footprint()
      ensures Valid()
      ensures entries == old(entries) || entries == old(entries) - {key}
      ensures data == if key in entries then Some(entries[key]) else None
    {
      data := store.Get(key);
      assert forall k :: store.Live(k) == old(store.Live(k));
      if data.None? {
        entries := entries - {key};
      }
    }

    method Set(key: string, data: string, ttl: Option<int>)
      requires Valid() && Storable(data) && IsTableKey(key, pre)
      modifies Footprint()
      ensures Valid() && entries == old(entries)[key := data]
    {
      TableKeyIsLaidOut(key);
      store.Set(key, data, ttl);
      assert forall k | k != key :: store.Live(k) == old(store.Live(k));
      assert store.Live(key).Some? ==> store.Live(key).value == data;
      entries := entries[key := data];
    }

    lemma TableKeyIsLaidOut(key: string)
      requires IsTableKey(key, pre)
      ensures GetKeyFieldOrNot(key, SEPARATOR).Some?
    {
      var t, x :| CacheableTable(t) && IsKeyOf(key, pre, t, x);
      TableHashesFound(pre, t, x);
    }

    method Del(key: string)
      requires Valid()
      modifies Footprint()
      ensures Valid() && entries == old(entries) - {key}
    {
      store.Del(key);
      assert forall k :: store.Live(k) == if k == key then None else old(store.Live(k));
      entries := entries - {key};
    }

    /** Dropping a table's prefix by containment loses at least the keys that start with it. */
    method DropPrefix(prefix: string, ghost table: string)
      requires Valid() && ColonFree(table) && IsTablePrefix(prefix, pre, table)
      modifies Footprint()
      ensures Valid() && entries == WithoutPrefixes(old(entries), [prefix])
    {
      store.DropPrefix([prefix]);
      entries := WithoutPrefixes(entries, [prefix]);
      forall k | store.Live(k).Some? ensures store.Live(k) == old(store.Live(k)) && !(prefix <= k) {
        assert store.Live(k) == old(store.Live(k));
        RS.ContainsOnlyOne(GetKeyFieldOrNot(k, SEPARATOR).value.0, prefix);
        NotUnderPrefix(pre, table, prefix, k);
      }
      forall k { StartsWithSingle(k, prefix); }
    }

    /** Evicts whole hashes. */
    method Lose(hashes: set<string>)
      requires Valid()
      modifies Footprint()
      ensures Valid() && entries == old(entries)
    {
      store.server.Del(hashes);
      assert forall k :: store.Live(k) == None || store.Live(k) == old(store.Live(k));
    }

    method Tick(seconds: nat)
      requires Valid()
      modifies Footprint()
      ensures Valid() && entries == old(entries)
    {
      store.now := store.now + seconds;
      assert forall k :: store.Live(k) == None || store.Live(k) == old(store.Live(k));
    }

    method Collect()
      requires Valid()
      modifies Footprint()
      ensures Valid() && entries == old(entries)
    {
      store.StoreGC(GLOBAL_PREFIX + ":" + pre);
    }
  }
}
