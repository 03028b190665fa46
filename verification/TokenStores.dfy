/**
 The token stores (jwt/store.go): a plain map in memory, and a read-through cache over Redis
 that must behave as one.
 */
module TokenStores {
  import opened Wrappers
  import opened Sessions
  import opened RedisLayout
  import RS = RedisStores
  import opened FreeStores

  /** JSON of a token. */
  datatype TokenCodec = TokenCodec(encode: Token -> string, decode: string -> Option<Token>)

  class DefaultTokenStore {
    var tokens: map<string, Token>

    constructor ()
      ensures tokens == map[]
    {
      tokens := map[];
    }

    method SetToken(key: string, t: Token)
      modifies this
      ensures tokens == old(tokens)[key := t]
    {
      tokens := tokens[key := t];
    }

    method GetToken(key: string) returns (t: Option<Token>)
      ensures t == if key in tokens then Some(tokens[key]) else None
    {
      t := if key in tokens then Some(tokens[key]) else None;
    }

    method DelToken(key: string)
      modifies this
      ensures tokens == old(tokens) - {key}
    {
      tokens := tokens - {key};
    }

    /** Visits every token once and deletes the expired ones. */
    method ClearExpiredToken(now: int)
      modifies this
      ensures tokens == map k | k in old(tokens) && !old(tokens)[k].Expired(now) :: old(tokens)[k]
    {
      var todo := tokens.Keys;
      while todo != {}
        invariant todo <= old(tokens).Keys
        invariant tokens == map k | k in old(tokens) && (k in todo || !old(tokens)[k].Expired(now)) :: old(tokens)[k]
        decreases |todo|
      {
        var k :| k in todo;
        if tokens[k].Expired(now) {
          tokens := tokens - {k};
        }
        todo := todo - {k};
      }
    }
  }

  /** Tokens live in Redis; mem remembers their text and may lose any of it. tokens is the single map they stand for. */
  class RedisTokenStore {
    const store: RS.RedisStore
    const mem: FreeStore<string>
    const codec: TokenCodec
    ghost var tokens: map<string, Token>

    /** Starts on a server without tokens. */
    constructor (store: RS.RedisStore, mem: FreeStore<string>, codec: TokenCodec)
      requires mem.entries == map[] && forall k :: store.Raw(k) == None
      ensures this.store == store && this.mem == mem && this.codec == codec && tokens == map[]
      ensures CodecsValid() ==> Valid()
    {
      this.store, this.mem, this.codec := store, mem, codec;
      tokens := map[];
      new;
      assert forall k :: this.store.Entry(k) == None;
    }

    ghost function Footprint(): set<object> {
      {this, store, store.server, mem}
    }

    predicate Usable(key: string) {
      GetKeyFieldOrNot(key, store.separator).Some?
    }

    /** Tokens survive both codecs. */
    ghost predicate CodecsValid() {
      && store.codec.Valid()
      && forall t :: codec.decode(codec.encode(t)) == Some(t) && store.codec.encode(RS.RedisValue(codec.encode(t), 0)).Some?
    }

    /** What memory remembers is what Redis holds, and nothing in Redis expires by itself. */
    ghost predicate Backed()
      reads store, store.server, mem
    {
      && CodecsValid()
      && (forall k {:trigger k in mem.entries} | k in mem.entries :: store.Entry(k) == Some(RS.RedisValue(mem.entries[k], 0)))
      && (forall k | store.Entry(k).Some? :: store.Entry(k).value.expireAt == 0)
    }

    ghost function InRedis(key: string): Option<Token>
      reads store, store.server
    {
      if store.Entry(key).Some? then codec.decode(store.Entry(key).value.val) else None
    }

    ghost predicate Valid()
      reads Footprint()
    {
      Backed() && forall k {:trigger InRedis(k)} :: InRedis(k) == if k in tokens then Some(tokens[k]) else None
    }

    method SetToken(key: string, t: Token)
      requires Valid() && Usable(key)
      modifies Footprint()
      ensures Valid() && tokens == old(tokens)[key := t]
    {
      WriteThrough(key, codec.encode(t));
      assert forall k :: InRedis(k) == if k == key then Some(t) else old(InRedis(k));
      tokens := tokens[key := t];
    }

    /** Writes to Redis, without expiry, and to memory. */
    method WriteThrough(key: string, data: string)
      requires Backed() && Usable(key) && store.codec.encode(RS.RedisValue(data, 0)).Some?
      modifies store.server, mem
      ensures Backed()
      ensures forall k :: store.Entry(k) == if k == key then Some(RS.RedisValue(data, 0)) else old(store.Entry(k))
    {
      store.Set(key, data, Some(-1));
      mem.Set(key, data);
      assert forall k | k != key :: store.Entry(k) == old(store.Entry(k));
      assert store.Entry(key) == Some(RS.RedisValue(data, 0));
    }

    method GetToken(key: string) returns (t: Option<Token>)
      requires Valid()
      modifies Footprint()
      ensures Valid() && tokens == old(tokens)
      ensures t == if key in tokens then Some(tokens[key]) else None
    {
      t := ReadThrough(key);
      assert InRedis(key) == t;
    }

    /** Looks in memory first, and remembers what it had to fetch. */
    method ReadThrough(key: string) returns (t: Option<Token>)
      requires Backed()
      modifies store.server, mem
      ensures Backed() && t == old(InRedis(key))
      ensures forall k :: InRedis(k) == old(InRedis(k))
    {
      var data := mem.Get(key);
      if data.None? {
        data := store.Get(key);
        assert forall k :: store.Entry(k) == old(store.Entry(k));
        if data.None? {
          return None;
        }
        mem.Set(key, data.value);
      }
      t := codec.decode(data.value);
    }

    method DelToken(key: string)
      requires Valid()
      modifies Footprint()
      ensures Valid() && tokens == old(tokens) - {key}
    {
      store.Del(key);
      assert forall k :: store.Entry(k) == if k == key then None else old(store.Entry(k));
      mem.Del(key);
      assert Backed();
      assert forall k :: InRedis(k) == if k == key then None else old(InRedis(k));
      tokens := tokens - {key};
    }

    /** Collects garbage in Redis, where no token ever expires, and forgets what memory remembers. */
    method ClearExpiredToken(prefix: string)
      requires Valid()
      modifies Footprint()
      ensures Valid() && tokens == old(tokens)
    {
      store.StoreGC(prefix);
      assert forall k :: store.Entry(k) == old(store.Entry(k));
      mem.ClearAll();
      assert forall k :: InRedis(k) == old(InRedis(k));
    }

    /** The memory cache loses entries on its own. */
    method Evict(keys: set<string>)
      requires Valid()
      modifies Footprint()
      ensures Valid() && tokens == old(tokens)
    {
      mem.Evict(keys);
      assert forall k :: InRedis(k) == old(InRedis(k));
    }

    method Tick(seconds: nat)
      requires Valid()
      modifies Footprint()
      ensures Valid() && tokens == old(tokens)
    {
      store.now := store.now + seconds;
      assert forall k :: store.Entry(k) == old(store.Entry(k));
      assert forall k :: InRedis(k) == old(InRedis(k));
    }
  }
}
