/**
 The Redis-backed store of the query cache (mdb/storage-redis.go, and HDeleter and HScanCallback
 of mdb/storage.go). Flat keys live in a server of hashes; the store must still act as a flat map.
 */
module RedisStores {
  import opened Wrappers
  import opened CacheKeys
  import opened RedisLayout
  import opened Strings

  type Hash = map<string, string>

  datatype RedisValue = RedisValue(val: string, expireAt: int)
  {
    predicate IsExpired(now: int) {
      expireAt > 0 && expireAt < now
    }
  }

  /** The JSON codec of RedisValue. Encoding fails for a payload that is not JSON itself. */
  datatype Codec = Codec(encode: RedisValue -> Option<string>, decode: string -> Option<RedisValue>)
  {
    ghost predicate Valid() {
      forall rv :: encode(rv).Some? ==> decode(encode(rv).value) == Some(rv)
    }
  }

  function FieldAt(flat: seq<string>, i: nat): string
    requires i < |flat| / 2
  {
    flat[2 * i]
  }

  function ValueAt(flat: seq<string>, i: nat): string
    requires i < |flat| / 2
  {
    flat[2 * i + 1]
  }

  ghost predicate ScanOf(hash: Hash, flat: seq<string>) {
    && |flat| % 2 == 0
    && (forall i: nat | i < |flat| / 2 :: FieldAt(flat, i) in hash && hash[FieldAt(flat, i)] == ValueAt(flat, i))
    && (forall f | f in hash :: exists i: nat :: i < |flat| / 2 && FieldAt(flat, i) == f)
  }

  /** The server: a map of hashes. A hash without fields does not exist. */
  class RedisServer {
    var hashes: map<string, Hash>

    constructor ()
      ensures hashes == map[]
    {
      hashes := map[];
    }

    ghost function At(key: string, field: string): Option<string>
      reads this
    {
      if key in hashes && field in hashes[key] then Some(hashes[key][field]) else None
    }

    method HGet(key: string, field: string) returns (v: Option<string>)
      ensures v == At(key, field)
    {
      if key in hashes && field in hashes[key] {
        return Some(hashes[key][field]);
      }
      return None;
    }

    method HSet(key: string, field: string, v: string)
      modifies this
      ensures forall k, f :: At(k, f) == if k == key && f == field then Some(v) else old(At(k, f))
    {
      hashes := hashes[key := (if key in hashes then hashes[key] else map[])[field := v]];
    }

    method HDel(key: string, fields: seq<string>)
      modifies this
      ensures forall k, f :: At(k, f) == if k == key && f in fields then None else old(At(k, f))
      ensures hashes.Keys <= old(hashes).Keys
    {
      if key in hashes {
        var rest := map f | f in hashes[key] && f !in fields :: hashes[key][f];
        assert forall f | f in hashes[key] && f !in fields :: f in rest;
        hashes := if rest == map[] then hashes - {key} else hashes[key := rest];
      }
    }

    method Del(keys: set<string>)
      modifies this
      ensures hashes == old(hashes) - keys
    {
      hashes := hashes - keys;
    }

    /** All fields and values of a hash in a flat list, in any order; the server may repeat some. */
    method HScan(key: string) returns (flat: seq<string>)
      ensures ScanOf(if key in hashes then hashes[key] else map[], flat)
    {
      flat := [];
      var hash := if key in hashes then hashes[key] else map[];
      var todo := hash.Keys;
      while todo != {}
        invariant todo <= hash.Keys && |flat| % 2 == 0
        invariant forall i: nat | i < |flat| / 2 :: FieldAt(flat, i) in hash && hash[FieldAt(flat, i)] == ValueAt(flat, i)
        invariant forall f | f in hash && f !in todo :: exists i: nat :: i < |flat| / 2 && FieldAt(flat, i) == f
        decreases |todo|
      {
        var f :| f in todo;
        ghost var before := flat;
        flat := flat + [f, hash[f]];
        assert forall i: nat | i < |before| / 2 :: FieldAt(flat, i) == FieldAt(before, i) && ValueAt(flat, i) == ValueAt(before, i);
        assert FieldAt(flat, |before| / 2) == f && ValueAt(flat, |before| / 2) == hash[f];
        todo := todo - {f};
      }
    }

    /** SCAN MATCH *match*. */
    method ScanKeys(match_: string) returns (keys: set<string>)
      ensures keys == set k | k in hashes && Contains(k, match_)
    {
      keys := set k | k in hashes && Contains(k, match_);
    }

    method FlushDB()
      modifies this
      ensures hashes == map[]
    {
      hashes := map[];
    }
  }

  // ---------- Deleting in batches ----------

  const BATCH: nat := 100

  /** Collects fields to delete; a call without fields flushes what is left. */
  class HDeleter {
    const server: RedisServer
    const key: string
    var fields: seq<string>

    constructor (server: RedisServer, key: string)
      ensures this.server == server && this.key == key && fields == []
    {
      this.server, this.key, fields := server, key, [];
    }

    method Call(more: seq<string>)
      modifies this, server
      ensures
        var all := old(fields) + more;
        if |all| >= BATCH || more == [] then
          && fields == []
          && forall k, f :: server.At(k, f) == if k == key && f in all then None else old(server.At(k, f))
        else
          && fields == all
          && forall k, f :: server.At(k, f) == old(server.At(k, f))
    {
      fields := fields + more;
      if |fields| <= 0 {
        return;
      }
      if |fields| < BATCH && |more| > 0 {
        return;
      }
      server.HDel(key, fields);
      fields := [];
    }
  }

  // ---------- Flat map ----------

  datatype Operation =
    | Get(key: string)
    | Set(key: string, data: string, ttl: Option<int>)
    | Del(key: string)
    | DropPrefix(prefixes: seq<string>)
    | Collect(prefix: string)
    | Tick(seconds: nat)

  /** What a store that really is a flat map answers, and becomes. */
  function FlatGet(flat: map<string, RedisValue>, now: int, key: string): Option<string> {
    if key in flat && !flat[key].IsExpired(now) then Some(flat[key].val) else None
  }

  function Stored(data: string, ttl: Option<int>, now: int): RedisValue {
    RedisValue(data, if ttl.Some? && ttl.value > 0 then now + ttl.value else 0)
  }

  /** The key is laid out in a hash whose name contains one of the prefixes. */
  predicate InHashWith(key: string, separator: string, prefixes: seq<string>) {
    var kf := GetKeyFieldOrNot(key, separator);
    kf.Some? && ContainsOne(kf.value.0, prefixes)
  }

  function FlatStep(separator: string, flat: map<string, RedisValue>, now: int, op: Operation): map<string, RedisValue> {
    match op
    case Get(key) => if key in flat && flat[key].IsExpired(now) then flat - {key} else flat
    case Set(key, data, ttl) => flat[key := Stored(data, ttl, now)]
    case Del(key) => flat - {key}
    case DropPrefix(prefixes) => map k | k in flat && !InHashWith(k, separator, prefixes) :: flat[k]
    case Collect(prefix) => map k | k in flat && !(InHashWith(k, separator, [prefix]) && flat[k].IsExpired(now)) :: flat[k]
    case Tick(_) => flat
  }

  function FlatAnswer(flat: map<string, RedisValue>, now: int, op: Operation): Option<string> {
    if op.Get? then FlatGet(flat, now, op.key) else None
  }

  function Later(now: int, op: Operation): int {
    if op.Tick? then now + op.seconds else now
  }

  function FlatRun(separator: string, flat: map<string, RedisValue>, now: int, ops: seq<Operation>): seq<Option<string>>
    decreases |ops|
  {
    if ops == [] then []
    else [FlatAnswer(flat, now, ops[0])] + FlatRun(separator, FlatStep(separator, flat, now, ops[0]), Later(now, ops[0]), ops[1..])
  }

  lemma FlatRunStep(separator: string, flat: map<string, RedisValue>, now: int, ops: seq<Operation>, before: seq<Option<string>>)
    requires ops != []
    ensures before + FlatRun(separator, flat, now, ops)
         == before + [FlatAnswer(flat, now, ops[0])] + FlatRun(separator, FlatStep(separator, flat, now, ops[0]), Later(now, ops[0]), ops[1..])
  {
  }

  // ---------- The store ----------

  class RedisStore {
    const server: RedisServer
    const separator: string
    const codec: Codec
    var now: int

    constructor (server: RedisServer, separator: string, codec: Codec, now: int)
      ensures this.server == server && this.separator == separator && this.codec == codec && this.now == now
    {
      this.server, this.separator, this.codec, this.now := server, separator, codec, now;
    }

    /** The raw text stored for a flat key. */
    ghost function Raw(key: string): Option<string>
      reads server
    {
      var kf := GetKeyFieldOrNot(key, separator);
      if kf.Some? then server.At(kf.value.0, kf.value.1) else None
    }

    ghost function Entry(key: string): Option<RedisValue>
      reads server
    {
      var raw := Raw(key);
      if raw.Some? then codec.decode(raw.value) else None
    }

    method Get(key: string) returns (data: Option<string>)
      modifies server
      ensures data == if old(Entry(key)).Some? && !old(Entry(key)).value.IsExpired(now) then Some(old(Entry(key)).value.val) else None
      ensures forall x :: Raw(x) == if x == key && old(Entry(key)).Some? && old(Entry(key)).value.IsExpired(now) then None else old(Raw(x))
      ensures data == old(Live(key)) && forall x :: Live(x) == old(Live(x))
    {
      var kf := GetKeyFieldOrNot(key, separator);
      if kf.None? {
        return None;
      }
      var v := server.HGet(kf.value.0, kf.value.1);
      if v.None? {
        return None;
      }
      var rv := codec.decode(v.value);
      if rv.None? {
        return None;
      }
      if rv.value.IsExpired(now) {
        Del(key);
        return None;
      }
      return Some(rv.value.val);
    }

    method Del(key: string)
      modifies server
      ensures forall x :: Raw(x) == if x == key then None else old(Raw(x))
    {
      var kf := GetKeyFieldOrNot(key, separator);
      if kf.None? {
        return;
      }
      server.HDel(kf.value.0, [kf.value.1]);
      OnlyThisKey(key);
    }

    lemma OnlyThisKey(key: string)
      ensures forall x | GetKeyFieldOrNot(x, separator).Some? && GetKeyFieldOrNot(x, separator) == GetKeyFieldOrNot(key, separator) ::
                x == key
    {
      forall x | GetKeyFieldOrNot(x, separator).Some? && GetKeyFieldOrNot(x, separator) == GetKeyFieldOrNot(key, separator)
        ensures x == key
      {
        LayoutInjective(x, key, separator);
      }
    }

    /** Stores under keys that hold the separator, and drops what cannot be encoded. */
    method Set(key: string, data: string, ttl: Option<int>)
      modifies server
      ensures var v := codec.encode(Stored(data, ttl, now));
              forall x :: Raw(x) == if x == key && v.Some? && GetKeyFieldOrNot(key, separator).Some? then v else old(Raw(x))
    {
      var kf := GetKeyFieldOrNot(key, separator);
      if kf.None? {
        return;
      }
      var expireAt := 0;
      if ttl.Some? && ttl.value > 0 {
        expireAt := now + ttl.value;
      }
      var v := codec.encode(RedisValue(data, expireAt));
      if v.None? {
        return;
      }
      server.HSet(kf.value.0, kf.value.1, v.value);
      OnlyThisKey(key);
    }

    /** Drops the hashes whose name contains one of the prefixes. */
    method DropPrefix(prefixes: seq<string>)
      modifies server
      ensures server.hashes == map k | k in old(server.hashes) && !ContainsOne(k, prefixes) :: old(server.hashes)[k]
      ensures forall x :: Raw(x) == if InHashWith(x, separator, prefixes) then None else old(Raw(x))
    {
      for i := 0 to |prefixes|
        invariant server.hashes == map k | k in old(server.hashes) && !ContainsOne(k, prefixes[..i]) :: old(server.hashes)[k]
      {
        ghost var before := server.hashes;
        var keys := server.ScanKeys(prefixes[i]);
        assert forall k | k in before :: k in keys <==> Contains(k, prefixes[i]);
        if keys != {} {
          server.Del(keys);
        }
        assert server.hashes == map k | k in before && !Contains(k, prefixes[i]) :: before[k];
        forall k { ContainsOneMore(k, prefixes, i); }
      }
      assert prefixes[..|prefixes|] == prefixes;
    }

    /** Every key of a table lies in a hash that dropping the table's two prefixes removes. */
    lemma TableDropped(pre: string, table: string, x: string)
      requires separator == SEPARATOR && ColonFree(table) && table != "sep"
      ensures InHashWith(PrimaryCacheKey(pre, table, x), separator, [PrimaryKeyPrefix(pre, table), SearchKeyPrefix(pre, table)])
      ensures InHashWith(SearchCacheKey(pre, table, x), separator, [PrimaryKeyPrefix(pre, table), SearchKeyPrefix(pre, table)])
    {
      TableHashesFound(pre, table, x);
      var dropped := [PrimaryKeyPrefix(pre, table), SearchKeyPrefix(pre, table)];
      var p := GetKeyFieldOrNot(PrimaryCacheKey(pre, table, x), separator).value.0;
      var s := GetKeyFieldOrNot(SearchCacheKey(pre, table, x), separator).value.0;
      PrefixIsContained(p, dropped[0]);
      PrefixIsContained(s, dropped[1]);
    }

    /** A row's entry is gone after its table's two prefixes have been dropped, if and only if the table is not called "sep". */
    lemma RowDroppedIff(pre: string, table: string, pk: string, id: nat)
      requires separator == SEPARATOR && ColonFree(table) && ColonFree(pk)
      ensures var prefixes := [PrimaryKeyPrefix(pre, table), SearchKeyPrefix(pre, table)];
              InHashWith(PrimaryCacheKey(pre, table, IdText(pk, id)), separator, prefixes) <==> table != "sep"
    {
      if table == "sep" {
        TableCalledSepIsMissed(pre, pk, id);
        LongerNotContained(GLOBAL_PREFIX + ":" + pre + ":p", SearchKeyPrefix(pre, table));
      } else {
        TableDropped(pre, table, IdText(pk, id));
      }
    }

    /** What the store holds is what the flat map holds. */
    ghost predicate Agrees(flat: map<string, RedisValue>)
      reads this, server
    {
      forall x :: Entry(x) == if x in flat then Some(flat[x]) else None
    }

    /** The cache builds its keys with the separator and its payloads as JSON. */
    ghost predicate Usable(op: Operation) {
      op.Set? ==> GetKeyFieldOrNot(op.key, separator).Some? && forall e :: codec.encode(RedisValue(op.data, e)).Some?
    }

    /** Any sequence of operations, with time passing in between, answers as a flat map does. */
    method Run(ops: seq<Operation>, ghost flat: map<string, RedisValue>) returns (answers: seq<Option<string>>)
      requires codec.Valid() && Agrees(flat) && forall i | 0 <= i < |ops| :: Usable(ops[i])
      modifies this, server
      ensures answers == FlatRun(separator, flat, old(now), ops)
    {
      answers := [];
      ghost var m := flat;
      for i := 0 to |ops|
        invariant Agrees(m)
        invariant answers + FlatRun(separator, m, now, ops[i..]) == FlatRun(separator, flat, old(now), ops)
      {
        ghost var t := now;
        assert ops[i..][1..] == ops[i + 1..];
        var answer := Perform(ops[i], m);
        FlatRunStep(separator, m, t, ops[i..], answers);
        answers := answers + [answer];
        m := FlatStep(separator, m, t, ops[i]);
      }
    }

    method Perform(op: Operation, ghost flat: map<string, RedisValue>) returns (answer: Option<string>)
      requires codec.Valid() && Agrees(flat) && Usable(op)
      modifies this, server
      ensures Agrees(FlatStep(separator, flat, old(now), op))
      ensures answer == FlatAnswer(flat, old(now), op)
      ensures now == Later(old(now), op)
    {
      answer := None;
      match op
      case Get(key) => answer := PerformGet(key, flat);
      case Set(key, data, ttl) => PerformSet(key, data, ttl, flat);
      case Del(key) => PerformDel(key, flat);
      case DropPrefix(prefixes) => PerformDrop(prefixes, flat);
      case Collect(prefix) => PerformCollect(prefix, flat);
      case Tick(seconds) => now := now + seconds;
    }

    method PerformDel(key: string, ghost flat: map<string, RedisValue>)
      requires Agrees(flat)
      modifies server
      ensures Agrees(FlatStep(separator, flat, now, Operation.Del(key)))
    {
      Del(key);
    }

    method PerformDrop(prefixes: seq<string>, ghost flat: map<string, RedisValue>)
      requires Agrees(flat)
      modifies server
      ensures Agrees(FlatStep(separator, flat, now, Operation.DropPrefix(prefixes)))
    {
      DropPrefix(prefixes);
      assert forall x :: Entry(x) == if InHashWith(x, separator, prefixes) then None else old(Entry(x));
    }

    method PerformCollect(prefix: string, ghost flat: map<string, RedisValue>)
      requires Agrees(flat)
      modifies server
      ensures Agrees(FlatStep(separator, flat, now, Collect(prefix)))
    {
      StoreGC(prefix);
    }

    method PerformGet(key: string, ghost flat: map<string, RedisValue>) returns (answer: Option<string>)
      requires Agrees(flat)
      modifies server
      ensures Agrees(FlatStep(separator, flat, now, Operation.Get(key))) && answer == FlatGet(flat, now, key)
    {
      answer := Get(key);
      assert forall x :: Entry(x) ==
                         if x == key && old(Entry(key)).Some? && old(Entry(key)).value.IsExpired(now) then None else old(Entry(x));
    }

    method PerformSet(key: string, data: string, ttl: Option<int>, ghost flat: map<string, RedisValue>)
      requires codec.Valid() && Agrees(flat) && Usable(Operation.Set(key, data, ttl))
      modifies server
      ensures Agrees(FlatStep(separator, flat, now, Operation.Set(key, data, ttl)))
    {
      Set(key, data, ttl);
    }

    predicate Dead(text: string)
      reads this
    {
      codec.decode(text).None? || codec.decode(text).value.IsExpired(now)
    }

    function Swept(v: Option<string>): Option<string>
      reads this
    {
      if v.Some? && Dead(v.value) then None else v
    }

    /** What of a flat key an answer can depend on. */
    ghost function Live(key: string): Option<string>
      reads this, server
    {
      if Entry(key).Some? && !Entry(key).value.IsExpired(now) then Some(Entry(key).value.val) else None
    }

    ghost function DeadFields(hash: Hash): set<string>
      reads this
    {
      set f | f in hash && Dead(hash[f])
    }

    /** The field waits in the deleter to be deleted, or is gone. */
    ghost predicate Handed(deleter: HDeleter, field: string)
      reads deleter, deleter.server
    {
      field in deleter.fields || deleter.server.At(deleter.key, field) == None
    }

    /** Hands a dead field to the deleter, which may delete it at once, together with the fields it holds. */
    method Visit(field: string, value: string, deleter: HDeleter, ghost dead: set<string>)
      requires deleter.server == server && (Dead(value) ==> field in dead)
      requires forall f | f in deleter.fields :: f in dead
      modifies server, deleter
      ensures forall f | f in deleter.fields :: f in dead
      ensures forall f | old(Handed(deleter, f)) || (f == field && Dead(value)) :: Handed(deleter, f)
      ensures forall k, f | k != deleter.key || f !in dead :: server.At(k, f) == old(server.At(k, f))
    {
      if Dead(value) {
        deleter.Call([field]);
      }
    }

    /** Walks a scan in pairs, and so hands over every field with a dead value. */
    method HScanCallback(scan: seq<string>, deleter: HDeleter, ghost dead: set<string>)
      requires deleter.server == server && deleter.fields == [] && |scan| % 2 == 0
      requires forall i: nat | i < |scan| / 2 :: Dead(ValueAt(scan, i)) <==> FieldAt(scan, i) in dead
      modifies server, deleter
      ensures forall f | f in deleter.fields :: f in dead
      ensures forall i: nat | i < |scan| / 2 && FieldAt(scan, i) in dead :: Handed(deleter, FieldAt(scan, i))
      ensures forall k, f | k != deleter.key || f !in dead :: server.At(k, f) == old(server.At(k, f))
    {
      ghost var pairs: nat := 0;
      var s: seq<string> := [];
      for j := 0 to |scan|
        invariant s == scan[..j] && pairs == j / 2
        invariant forall k, f | k != deleter.key || f !in dead :: server.At(k, f) == old(server.At(k, f))
        invariant forall f | f in deleter.fields :: f in dead
        invariant forall i: nat | i < pairs && FieldAt(scan, i) in dead :: Handed(deleter, FieldAt(scan, i))
      {
        s := s + [scan[j]];
        var n := |s|;
        if n > 1 && n % 2 == 0 {
          assert s[n - 2] == FieldAt(scan, pairs) && s[n - 1] == ValueAt(scan, pairs);
          Visit(s[n - 2], s[n - 1], deleter, dead);
          pairs := pairs + 1;
        }
      }
    }

    /** Scans one hash and deletes its dead fields in batches. */
    method CollectHash(key: string)
      modifies server
      ensures forall k, f :: server.At(k, f) == if k == key then Swept(old(server.At(k, f))) else old(server.At(k, f))
    {
      var deleter := new HDeleter(server, key);
      var scan := server.HScan(key);
      ghost var hash := if key in server.hashes then server.hashes[key] else map[];
      ghost var dead := DeadFields(hash);
      HScanCallback(scan, deleter, dead);
      assert forall f | f in dead :: Handed(deleter, f);
      deleter.Call([]);
      assert forall f | f in dead :: server.At(key, f) == None;
    }

    /** Removes exactly the expired and undecodable fields of the hashes it covers, and changes no answer. */
    method StoreGC(prefix: string)
      modifies server
      ensures forall k, f :: server.At(k, f) == if Contains(k, prefix) then Swept(old(server.At(k, f))) else old(server.At(k, f))
      ensures forall x :: Live(x) == old(Live(x))
      ensures forall x :: Entry(x) ==
                if InHashWith(x, separator, [prefix]) && old(Entry(x)).Some? && old(Entry(x)).value.IsExpired(now) then None else old(Entry(x))
    {
      var keys := server.ScanKeys(prefix);
      var todo := keys;
      while todo != {}
        invariant todo <= keys
        invariant forall k, f :: server.At(k, f) == if k in keys && k !in todo then Swept(old(server.At(k, f))) else old(server.At(k, f))
        decreases |todo|
      {
        var key :| key in todo;
        CollectHash(key);
        todo := todo - {key};
      }
      forall h { ContainsOnlyOne(h, prefix); }
      assert forall x :: InHashWith(x, separator, [prefix]) <==>
        GetKeyFieldOrNot(x, separator).Some? && Contains(GetKeyFieldOrNot(x, separator).value.0, prefix);
    }

    method ClearAll()
      modifies server
      ensures forall x :: Raw(x) == None
    {
      server.FlushDB();
    }
  }

  lemma ContainsOnlyOne(s: string, sub: string)
    ensures ContainsOne(s, [sub]) <==> Contains(s, sub)
  {
    assert [sub][0] == sub;
  }

  lemma ContainsOneMore(s: string, subs: seq<string>, n: nat)
    requires n < |subs|
    ensures ContainsOne(s, subs[..n + 1]) <==> ContainsOne(s, subs[..n]) || Contains(s, subs[n])
  {
    assert subs[..n + 1] == subs[..n] + [subs[n]];
    if ContainsOne(s, subs[..n]) {
      var i :| 0 <= i < n && Contains(s, subs[..n][i]);
      assert Contains(s, subs[..n + 1][i]);
    }
    if Contains(s, subs[n]) {
      assert Contains(s, subs[..n + 1][n]);
    }
  }

  predicate ContainsOne(s: string, subs: seq<string>) {
    exists i | 0 <= i < |subs| :: Contains(s, subs[i])
  }
}
