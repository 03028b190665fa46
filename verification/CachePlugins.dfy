/**
 The cache plugin (mdb/gm2c.go) over either of its stores: a run through the cache cannot be told
 from a run against the database (CachePlugin.Run).
 */
module CachePlugins {
  import opened Wrappers
  import opened CacheKeys
  import opened Casts
  import opened WhereClauses
  import opened QueryCache
  import opened CacheStores
  import opened RedisCaches

  // ---------- Whole runs ----------

  datatype Op =
    | Select(r: Read)
    | SelectUncached(r: Read)
    | Change(w: Write)
    | Lose(keys: set<string>, seconds: nat, collect: bool)

  /** The tables a store can serve: dropping its prefix must reach every hash of the table. */
  predicate Serves(store: CacheStore, table: string) {
    store.Redis? ==> table != "sep"
  }

  ghost predicate OpOk(env: Env, store: CacheStore, op: Op) {
    match op
    case Select(r) => ReadOk(env, r) && Serves(store, r.table)
    case Change(w) => WriteOk(env, w) && (WriteTarget(env, w).None? || KeepsIds(w))
    case _ => true
  }

  datatype Outcome = Outcome(db: Database, answers: seq<Answer>)

  /** The same operations against the bare database. */
  function RunReference(env: Env, db: Database, ops: seq<Op>): Outcome {
    if ops == [] then Outcome(db, [])
    else
      var before := RunReference(env, db, ops[..|ops| - 1]);
      match ops[|ops| - 1]
      case Select(r) => before.(answers := before.answers + [Reference(env, before.db, r)])
      case SelectUncached(r) => before.(answers := before.answers + [Reference(env, before.db, r)])
      case Change(w) => before.(db := Applied(before.db, w))
      case Lose(_, _, _) => before
  }

  class CachePlugin {
    const env: Env
    const store: CacheStore
    const ttl: Option<int>
    var db: Database

    ghost predicate Valid()
      reads this, store.Footprint()
    {
      && this !in store.Footprint() && store.Valid() && PayloadsFit()
      && env.Valid() && Coherent(env, store.Entries(), db)
    }

    /** A Redis store keeps the keys of this plugin, and takes what the plugin stores as JSON. */
    ghost predicate PayloadsFit() {
      store.Redis? ==>
        && store.r.pre == env.prefix && store.r.Storable(NULL_VALUE)
        && (forall n: nat :: store.r.Storable(Decimal(n)))
        && (forall row :: store.r.Storable(env.encode(row)))
    }

    constructor (env: Env, store: CacheStore, ttl: Option<int>, db: Database)
      requires env.Valid() && store.Valid() && store.Entries() == map[]
      ensures this.env == env && this.store == store && this.ttl == ttl && this.db == db
      ensures PayloadsFit() ==> Valid()
    {
      this.env, this.store, this.ttl, this.db := env, store, ttl, db;
    }

    /** Keys of a served table are taken by the store. */
    lemma KeysFit(table: string, x: string, data: string)
      requires PayloadsFit() && ColonFree(table) && Serves(store, table)
      requires store.Redis? ==> store.r.Storable(data)
      ensures store.Takes(PrimaryKey(env, table, x), data) && store.Takes(SearchKey(env, table, x), data)
    {
      assert IsKeyOf(PrimaryKey(env, table, x), env.prefix, table, x);
      assert IsKeyOf(SearchKey(env, table, x), env.prefix, table, x);
    }

    /** Walks the top-level conditions; a write is content with the first recognised one. */
    method FindPrimaryCacheKey(table: string, where: seq<Cond>, justHas: bool) returns (text: Option<string>)
      ensures text == if justHas then KeyForWrite(InspectedTexts(env, table, where))
                      else KeyForRead(InspectedTexts(env, table, where))
    {
      var pk := env.pkName(table);
      if pk == "" || |where| < 1 {
        return None;
      }
      ghost var texts := Texts(where, pk);
      var m: set<string> := {};
      var v := "";
      for i := 0 to |where|
        invariant m == Recognised(texts[..i])
        invariant i > 0 ==> v == texts[i - 1]
        invariant justHas ==> FirstFound(texts) == FirstFound(texts[i..])
      {
        NextCondition(texts, i);
        v := ClauseFindPrimaryCacheKey(where[i].expr, pk);
        if v != "" {
          m := m + {v};
          if justHas {
            return Some(v);
          }
        }
      }
      assert texts[..|texts|] == texts;
      if justHas || |m| != 1 {
        return None;
      }
      return Some(v);
    }

    /** The key of a read, and whether it is a primary key. */
    method GetCacheKey(r: Read) returns (key: string, isPrimary: bool)
      ensures isPrimary <==> ReadTarget(env, r).Some?
      ensures key == match ReadTarget(env, r) case Some(text) => PrimaryKey(env, r.table, text)
                                              case None => SearchKey(env, r.table, r.sql)
    {
      var text := FindPrimaryCacheKey(r.table, r.where, false);
      match text
      case Some(t) => return PrimaryKey(env, r.table, t), true;
      case None => return SearchKey(env, r.table, r.sql), false;
    }

    method QueryCachePk(key: string) returns (answer: Option<Answer>)
      requires store.Valid()
      modifies store.Footprint()
      ensures store.Valid() && (store.Entries() == old(store.Entries()) || store.Entries() == old(store.Entries()) - {key})
      ensures answer == PrimaryHit(env, store.Entries(), key)
    {
      var data := store.Get(key);
      match data
      case None => return None;
      case Some(value) =>
        if value == NULL_VALUE {
          return Some(NotFound);
        }
        match env.decode(value)
        case Some(row) => return Some(Found(row));
        case None => return Some(DecodeError);
    }

    method QueryCacheSearch(r: Read, key: string) returns (result: SearchResult)
      requires store.Valid()
      modifies store.Footprint()
      ensures store.Valid() && (store.Entries() == old(store.Entries()) || store.Entries() == old(store.Entries()) - {key})
      ensures result == SearchHit(env, store.Entries(), r.table, key)
    {
      var data := store.Get(key);
      match data
      case None => return Miss;
      case Some(value) =>
        if value == NULL_VALUE {
          return KnownAbsent;
        }
        var id := ToUint64(value);
        if id <= 0 {
          return Miss;
        }
        var pk := env.pkName(r.table);
        if pk == "" {
          return Miss;
        }
        return Points(PrimaryKey(env, r.table, IdText(pk, id)));
    }

    /** Asks the two levels; what they no longer hold is lost. */
    method LookUp(r: Read) returns (answer: Option<Answer>)
      requires store.Valid()
      modifies store.Footprint()
      ensures store.Valid() && Fewer(store.Entries(), old(store.Entries()))
      ensures answer == Hit(env, store.Entries(), r)
    {
      var key, isPrimary := GetCacheKey(r);
      if isPrimary {
        answer := QueryCachePk(key);
        return;
      }
      var result := QueryCacheSearch(r, key);
      match result {
        case Miss => answer := None;
        case KnownAbsent => answer := Some(NotFound);
        case Points(pk) =>
          ghost var found := store.Entries();
          answer := QueryCachePk(pk);
          HitByPointer(env, found, store.Entries(), r, pk);
      }
    }

    /** What the two levels answer, by what is left of the entries; a hit is always the database's own answer. */
    method GetCache(r: Read) returns (answer: Option<Answer>)
      requires Valid() && ReadOk(env, r)
      modifies store.Footprint()
      ensures Valid() && Fewer(store.Entries(), old(store.Entries()))
      ensures answer == Hit(env, store.Entries(), r)
      ensures answer.Some? ==> answer.value == Reference(env, db, r)
    {
      answer := LookUp(r);
      CoherentAfterLoss(env, old(store.Entries()), store.Entries(), db);
      if answer.Some? {
        HitIsReference(env, store.Entries(), db, r);
      }
    }

    /** Stores what the database just answered, at both levels when the read went by SQL text. */
    method SetCache(r: Read, answer: Answer)
      requires Valid() && ReadOk(env, r) && Serves(store, r.table) && answer == Reference(env, db, r)
      modifies store.Footprint()
      ensures Valid()
      ensures store.Entries() == Remembered(env, old(store.Entries()), r, answer)
    {
      RememberedIsCoherent(env, store.Entries(), db, r);
      var key, isPrimary := GetCacheKey(r);
      KeysFit(r.table, r.sql, NULL_VALUE);
      if !isPrimary {
        if answer.NotFound? {
          store.Set(key, NULL_VALUE, Some(60));
          return;
        }
        var text := DestText(env, r.table, answer.row.id);
        if text.None? {
          return;
        }
        KeysFit(r.table, r.sql, Decimal(answer.row.id));
        store.Set(key, Decimal(answer.row.id), ttl);
        KeysFit(r.table, text.value, env.encode(answer.row));
        store.Set(PrimaryKey(env, r.table, text.value), env.encode(answer.row), ttl);
        return;
      }
      KeysFit(r.table, ReadTarget(env, r).value, NULL_VALUE);
      if answer.NotFound? {
        store.Set(key, NULL_VALUE, Some(60));
        return;
      }
      KeysFit(r.table, ReadTarget(env, r).value, env.encode(answer.row));
      store.Set(key, env.encode(answer.row), ttl);
    }

    /** A read through the cache answers what the database would, from what is left of the entries or by storing the answer. */
    method QueryWithCache(r: Read) returns (answer: Answer)
      requires Valid() && ReadOk(env, r) && Serves(store, r.table)
      modifies store.Footprint()
      ensures Valid()
      ensures answer == Reference(env, db, r)
      ensures exists left :: Fewer(left, old(store.Entries())) &&
                store.Entries() == if Hit(env, left, r).Some? then left else Remembered(env, left, r, answer)
    {
      var hit := GetCache(r);
      ghost var left := store.Entries();
      match hit
      case Some(a) => return a;
      case None =>
        answer := Reference(env, db, r);
        SetCache(r, answer);
    }

    /** Runs after every create, update and delete, whether or not it changed a row. */
    method AfterDelete(w: Write)
      requires store.Valid() && PayloadsFit() && ColonFree(w.table)
      modifies store.Footprint()
      ensures store.Valid() && store.Entries() == Invalidated(env, old(store.Entries()), w)
    {
      store.DropPrefix(SearchKeyPrefix(env.prefix, w.table), w.table);
      if !w.structSchema {
        store.DropPrefix(PrimaryKeyPrefix(env.prefix, w.table), w.table);
        return;
      }
      if !w.structDest {
        store.DropPrefix(PrimaryKeyPrefix(env.prefix, w.table), w.table);
        return;
      }
      var text := FindPrimaryCacheKey(w.table, w.where, true);
      if text.Some? {
        store.Del(PrimaryKey(env, w.table, text.value));
        return;
      }
      text := DestText(env, w.table, w.destId);
      if text.Some? {
        store.Del(PrimaryKey(env, w.table, text.value));
        return;
      }
      store.DropPrefix(PrimaryKeyPrefix(env.prefix, w.table), w.table);
    }

    method Execute(w: Write)
      requires Valid() && WriteOk(env, w) && (WriteTarget(env, w).None? || KeepsIds(w))
      modifies this, store.Footprint()
      ensures Valid()
      ensures db == Applied(old(db), w)
    {
      if WriteTarget(env, w).Some? {
        KeepsIdsMovesNothing(Rows(db, w.table), w);
      }
      InvalidationRestoresCoherence(env, store.Entries(), db, w);
      db := Applied(db, w);
      AfterDelete(w);
    }

    /**
     Cache transparency, on either store: over every sequence of cached and uncached reads, writes
     and losses of entries, every answer is the one the bare database would have given.
     */
    method Run(ops: seq<Op>) returns (answers: seq<Answer>)
      requires Valid() && forall i | 0 <= i < |ops| :: OpOk(env, store, ops[i])
      modifies this, store.Footprint()
      ensures Valid()
      ensures Outcome(db, answers) == RunReference(env, old(db), ops)
    {
      answers := [];
      for i := 0 to |ops|
        invariant Valid()
        invariant Outcome(db, answers) == RunReference(env, old(db), ops[..i])
      {
        assert ops[..i + 1][..i] == ops[..i];
        match ops[i] {
          case Select(r) =>
            var answer := QueryWithCache(r);
            answers := answers + [answer];
          case SelectUncached(r) =>
            answers := answers + [Reference(env, db, r)];
          case Change(w) =>
            Execute(w);
          case Lose(keys, seconds, collect) =>
            ghost var before := store.Entries();
            store.Meanwhile(keys, seconds, collect);
            CoherentAfterLoss(env, before, store.Entries(), db);
        }
      }
      assert ops[..|ops|] == ops;
    }
  }
}
