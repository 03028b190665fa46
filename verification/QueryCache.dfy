/**
 The two-level query cache (mdb/gm2c.go).

 A search key maps one SQL text to a primary id, a primary key maps an id to its row; both
 levels also remember "no such row". Reads fill the cache, writes invalidate it selectively.
 This module defines the database, what it means that every entry tells the truth, and shows
 that the selective invalidation keeps it so. Module CachePlugins holds the cache itself.
 */
module QueryCache {
  import opened Wrappers
  import opened CacheKeys
  import opened Casts
  import opened WhereClauses
  import opened FreeStores

  // ---------- The database ----------

  datatype Row = Row(id: nat, columns: map<string, string>)

  type Table = rows: map<nat, Row> | forall i | i in rows :: rows[i].id == i witness map[]

  type Database = map<string, Table>

  function Rows(db: Database, table: string): Table {
    if table in db then db[table] else map[]
  }

  /** A top-level condition: the expression the cache inspects and what the database makes of it. */
  datatype Cond = Cond(expr: Expression, holds: Row -> bool)

  predicate Matches(where: seq<Cond>, row: Row) {
    forall i | 0 <= i < |where| :: where[i].holds(row)
  }

  /** A single-row read: its top-level conditions and the SQL text sent to the database. */
  datatype Read = Read(table: string, where: seq<Cond>, sql: string)

  datatype Effect = Insert(added: seq<Row>) | Update(change: Row -> Row) | Delete

  /**
   A write. destId is the primary value carried by a struct argument, 0 when it carries none;
   gorm adds it as a further condition of an update or delete.
   */
  datatype Write = Write(table: string, where: seq<Cond>, structSchema: bool, structDest: bool, destId: nat, effect: Effect)

  datatype Answer = Found(row: Row) | NotFound | DecodeError

  /**
   What the surroundings fix: the key prefix, the primary column of each table ("" when there
   is not exactly one), the JSON codec, and which row the database returns for a SQL text.
   */
  datatype Env = Env(
    prefix: string,
    pkName: string -> string,
    encode: Row -> string,
    decode: string -> Option<Row>,
    first: (string, Table) -> Option<nat>)
  {
    /** The codec round-trips and never produces the bare word null. */
    ghost predicate Valid() {
      forall row :: decode(encode(row)) == Some(row) && encode(row) != NULL_VALUE
    }
  }

  function Texts(where: seq<Cond>, pk: string): (texts: seq<string>)
    ensures |texts| == |where|
    ensures forall i | 0 <= i < |where| :: texts[i] == ClauseFindPrimaryCacheKey(where[i].expr, pk)
  {
    seq(|where|, i requires 0 <= i < |where| => ClauseFindPrimaryCacheKey(where[i].expr, pk))
  }

  /** A recognised condition means what it was recognised as (ids in canonical decimal). */
  ghost predicate Faithful(c: Cond, pk: string) {
    var found := ClauseFindPrimaryCacheKey(c.expr, pk);
    found != "" ==> forall row: Row :: c.holds(row) <==> found == IdText(pk, row.id)
  }

  /** Conditions are looked at only in a table with a single primary column. */
  ghost predicate AllFaithful(env: Env, table: string, where: seq<Cond>) {
    env.pkName(table) != "" ==> forall i | 0 <= i < |where| :: Faithful(where[i], env.pkName(table))
  }

  /** What a read requires of its caller: see the preconditions listed in the README. */
  ghost predicate ReadOk(env: Env, r: Read) {
    && ColonFree(r.table)
    && NotMixed(InspectedTexts(env, r.table, r.where))
    && AllFaithful(env, r.table, r.where)
    && SelectsByWhere(env, r)
  }

  /** The SQL text selects by exactly the top-level conditions. */
  ghost predicate SelectsByWhere(env: Env, r: Read) {
    forall rows: Table :: match env.first(r.sql, rows)
      case Some(i) => i in rows && Matches(r.where, rows[i])
      case None => forall i | i in rows :: !Matches(r.where, rows[i])
  }

  ghost predicate WriteOk(env: Env, w: Write) {
    && ColonFree(w.table)
    && AllFaithful(env, w.table, w.where)
    && (w.effect.Insert? && w.structDest ==> |w.effect.added| == 1 && w.destId == w.effect.added[0].id && w.where == [])
    && (w.effect.Insert? && !w.structDest ==> w.where == [])
  }

  // ---------- Reference semantics: no cache at all ----------

  function Reference(env: Env, db: Database, r: Read): Answer {
    var rows := Rows(db, r.table);
    match env.first(r.sql, rows)
    case None => NotFound
    case Some(i) => if i in rows then Found(rows[i]) else NotFound
  }

  predicate Affected(w: Write, row: Row) {
    Matches(w.where, row) && (w.structSchema && w.structDest && w.destId != 0 ==> row.id == w.destId)
  }

  function Inserted(rows: Table, added: seq<Row>): (result: Table)
    ensures forall i | i !in (set r | r in added :: r.id) :: (i in result <==> i in rows) && (i in rows ==> result[i] == rows[i])
    decreases |added|
  {
    if added == [] then rows
    else Inserted(rows[added[0].id := added[0]], added[1..])
  }

  predicate Conflict(rows: Table, added: seq<Row>) {
    exists i | 0 <= i < |added| :: added[i].id in rows || exists j | 0 <= j < i :: added[j].id == added[i].id
  }

  /** What an update makes of a row. It may assign the primary column, too. */
  function Changed(w: Write, row: Row): Row
    requires w.effect.Update?
  {
    if Affected(w, row) then w.effect.change(row) else row
  }

  /** Two rows would end up under one id. */
  predicate IdClash(rows: Table, w: Write)
    requires w.effect.Update?
  {
    exists i, j | i in rows && j in rows && i != j :: Changed(w, rows[i]).id == Changed(w, rows[j]).id
  }

  /** The updated rows, each under the id it has now. */
  function Rekeyed(rows: Table, w: Write): (result: Table)
    requires w.effect.Update? && !IdClash(rows, w)
    ensures forall i | i in rows :: Changed(w, rows[i]).id in result && result[Changed(w, rows[i]).id] == Changed(w, rows[i])
    ensures forall j | j in result :: exists i :: i in rows && Changed(w, rows[i]).id == j
  {
    map i | i in rows :: Changed(w, rows[i]).id := Changed(w, rows[i])
  }

  /** An insert is refused as a whole when an id is taken or repeated, an update when two rows would share an id. */
  function AfterWrite(rows: Table, w: Write): Table {
    match w.effect
    case Insert(added) =>
      if Conflict(rows, added) then rows else Inserted(rows, added)
    case Update(_) =>
      if IdClash(rows, w) then rows else Rekeyed(rows, w)
    case Delete =>
      map i | i in rows && !Affected(w, rows[i]) :: rows[i]
  }

  function Applied(db: Database, w: Write): Database {
    db[w.table := AfterWrite(Rows(db, w.table), w)]
  }

  /** Some row ends up under another id. */
  predicate MovesRow(rows: Table, w: Write) {
    w.effect.Update? && !IdClash(rows, w) && exists i | i in rows :: Changed(w, rows[i]).id != i
  }

  predicate Untouched(rows: Table, rows': Table, id: nat) {
    (id in rows <==> id in rows') && (id in rows ==> rows[id] == rows'[id])
  }

  // ---------- Coherence: every entry tells the truth ----------

  /** What a primary entry under this id text may say: the encoded row, or null iff no row has that id. */
  ghost predicate TellsRow(env: Env, value: string, rows: Table, pk: string, text: string) {
    && (forall id | id in rows && IdText(pk, id) == text :: value == env.encode(rows[id]))
    && ((forall id | id in rows :: IdText(pk, id) != text) ==> value == NULL_VALUE)
  }

  /** What a search entry must say: the id of the first match, or null iff there is none. */
  function SearchEntry(env: Env, rows: Table, sql: string): string {
    match env.first(sql, rows)
    case None => NULL_VALUE
    case Some(i) => Decimal(i)
  }

  function PrimaryKey(env: Env, table: string, text: string): string {
    PrimaryCacheKey(env.prefix, table, text)
  }

  function SearchKey(env: Env, table: string, sql: string): string {
    SearchCacheKey(env.prefix, table, sql)
  }

  ghost predicate Coherent(env: Env, entries: map<string, string>, db: Database) {
    && (forall t, text | ColonFree(t) && PrimaryKey(env, t, text) in entries ::
          TellsRow(env, entries[PrimaryKey(env, t, text)], Rows(db, t), env.pkName(t), text))
    && (forall t, sql | ColonFree(t) && SearchKey(env, t, sql) in entries ::
          entries[SearchKey(env, t, sql)] == SearchEntry(env, Rows(db, t), sql))
  }

  /** What is left of the entries when some have been lost. */
  predicate Fewer(entries': map<string, string>, entries: map<string, string>) {
    forall k | k in entries' :: k in entries && entries'[k] == entries[k]
  }

  /** Losing entries never hurts. */
  lemma CoherentAfterLoss(env: Env, entries: map<string, string>, entries': map<string, string>, db: Database)
    requires Coherent(env, entries, db) && Fewer(entries', entries)
    ensures Coherent(env, entries', db)
  {
  }

  /** Writing a true primary entry disturbs no other entry. */
  lemma CoherentAfterPrimarySet(env: Env, entries: map<string, string>, db: Database, table: string, text: string, value: string)
    requires Coherent(env, entries, db) && ColonFree(table)
    requires TellsRow(env, value, Rows(db, table), env.pkName(table), text)
    ensures Coherent(env, entries[PrimaryKey(env, table, text) := value], db)
  {
    var key := PrimaryKey(env, table, text);
    forall t, x | ColonFree(t) && PrimaryKey(env, t, x) == key ensures t == table && x == text {
      PrimaryKeysDistinct(env.prefix, t, x, table, text);
    }
    forall t, sql ensures SearchKey(env, t, sql) != key {
      KeyKindsDisjoint(env.prefix, table, text, t, sql);
    }
  }

  /** Writing a true search entry disturbs no other entry. */
  lemma CoherentAfterSearchSet(env: Env, entries: map<string, string>, db: Database, table: string, sql: string)
    requires Coherent(env, entries, db) && ColonFree(table)
    ensures Coherent(env, entries[SearchKey(env, table, sql) := SearchEntry(env, Rows(db, table), sql)], db)
  {
    var key := SearchKey(env, table, sql);
    forall t, s | ColonFree(t) && SearchKey(env, t, s) == key ensures t == table && s == sql {
      SearchKeysDistinct(env.prefix, t, s, table, sql);
    }
    forall t, x ensures PrimaryKey(env, t, x) != key {
      KeyKindsDisjoint(env.prefix, t, x, table, sql);
    }
  }

  // ---------- Selective invalidation ----------

  /** The primary value carried by a struct, as an id text; 0 is no value. */
  function DestText(env: Env, table: string, id: nat): Option<string> {
    if env.pkName(table) == "" || id == 0 then None else Some(IdText(env.pkName(table), id))
  }

  /** What findPrimaryCacheKey inspects: nothing without a single primary column. */
  function InspectedTexts(env: Env, table: string, where: seq<Cond>): seq<string> {
    if env.pkName(table) == "" then [] else Texts(where, env.pkName(table))
  }

  /** The one id text a write can be pinned to, if any: first its conditions, then its argument. */
  function WriteTarget(env: Env, w: Write): Option<string> {
    if !w.structSchema || !w.structDest then None
    else match KeyForWrite(InspectedTexts(env, w.table, w.where))
      case Some(text) => Some(text)
      case None => DestText(env, w.table, w.destId)
  }

  function Invalidated(env: Env, entries: map<string, string>, w: Write): map<string, string> {
    var rest := WithoutPrefixes(entries, [SearchKeyPrefix(env.prefix, w.table)]);
    match WriteTarget(env, w)
    case Some(text) => rest - {PrimaryKey(env, w.table, text)}
    case None => WithoutPrefixes(rest, [PrimaryKeyPrefix(env.prefix, w.table)])
  }

  /** A pinned write touches no row but the one it is pinned to. */
  lemma OnlyTargetTouched(env: Env, rows: Table, w: Write, id: nat)
    requires WriteOk(env, w) && WriteTarget(env, w).Some? && !MovesRow(rows, w)
    requires WriteTarget(env, w) != Some(IdText(env.pkName(w.table), id))
    ensures Untouched(rows, AfterWrite(rows, w), id)
  {
    match w.effect
    case Insert(_) => PinnedInsert(env, rows, w, id);
    case _ =>
      if id in rows { OtherRowNotAffected(env, rows, w, id); }
      UnaffectedStays(rows, w, id);
  }

  /** An insert is pinned only when it adds the one row its argument carries. */
  lemma PinnedInsert(env: Env, rows: Table, w: Write, id: nat)
    requires WriteOk(env, w) && w.effect.Insert? && WriteTarget(env, w).Some?
    requires WriteTarget(env, w) != Some(IdText(env.pkName(w.table), id))
    ensures Untouched(rows, AfterWrite(rows, w), id)
  {
    var added := w.effect.added;
    FirstFoundMeaning(InspectedTexts(env, w.table, w.where));
    assert added == [added[0]];
    assert (set r | r in added :: r.id) == {w.destId};
  }

  lemma UnaffectedStays(rows: Table, w: Write, id: nat)
    requires !w.effect.Insert? && !MovesRow(rows, w) && (id in rows ==> !Affected(w, rows[id]))
    ensures Untouched(rows, AfterWrite(rows, w), id)
  {
    if w.effect.Update? && !IdClash(rows, w) {
      assert forall i | i in rows :: Changed(w, rows[i]).id == i;
      UnmovedIds(rows, w);
    }
  }

  lemma UnmovedIds(rows: Table, w: Write)
    requires w.effect.Update? && !IdClash(rows, w) && forall i | i in rows :: Changed(w, rows[i]).id == i
    ensures Rekeyed(rows, w).Keys == rows.Keys && forall i | i in rows :: Rekeyed(rows, w)[i] == Changed(w, rows[i])
  {
    var result := Rekeyed(rows, w);
    forall j ensures j in result <==> j in rows {
      if j in rows {
        assert Changed(w, rows[j]).id == j;
      }
    }
  }

  lemma OtherRowNotAffected(env: Env, rows: Table, w: Write, id: nat)
    requires WriteOk(env, w) && WriteTarget(env, w).Some? && !w.effect.Insert? && id in rows
    requires WriteTarget(env, w) != Some(IdText(env.pkName(w.table), id))
    ensures !Affected(w, rows[id])
  {
    var texts := InspectedTexts(env, w.table, w.where);
    FirstFoundMeaning(texts);
    if KeyForWrite(texts).Some? {
      var i :| 0 <= i < |texts| && texts[i] == KeyForWrite(texts).value;
      assert Faithful(w.where[i], env.pkName(w.table));
      assert !w.where[i].holds(rows[id]);
    }
  }

  lemma InvalidatedIsSubmap(env: Env, entries: map<string, string>, w: Write, key: string)
    requires key in Invalidated(env, entries, w)
    ensures key in entries && Invalidated(env, entries, w)[key] == entries[key]
  {
  }

  lemma SearchEntriesGone(env: Env, entries: map<string, string>, w: Write, sql: string)
    ensures SearchKey(env, w.table, sql) !in Invalidated(env, entries, w)
  {
    KeysUnderPrefixes(env.prefix, w.table, sql);
    StartsWithSingle(SearchKey(env, w.table, sql), SearchKeyPrefix(env.prefix, w.table));
  }

  lemma SurvivorUntouched(env: Env, entries: map<string, string>, db: Database, w: Write, text: string, id: nat)
    requires WriteOk(env, w) && IdText(env.pkName(w.table), id) == text
    requires WriteTarget(env, w).None? || !MovesRow(Rows(db, w.table), w)
    requires PrimaryKey(env, w.table, text) in Invalidated(env, entries, w)
    ensures Untouched(Rows(db, w.table), Rows(Applied(db, w), w.table), id)
  {
    KeysUnderPrefixes(env.prefix, w.table, text);
    StartsWithSingle(PrimaryKey(env, w.table, text), PrimaryKeyPrefix(env.prefix, w.table));
    OnlyTargetTouched(env, Rows(db, w.table), w, id);
  }

  /**
   The selective invalidation of a write leaves a cache that is coherent with the new rows, if the
   write is not pinned to one row or leaves every row under its id.
   */
  lemma InvalidationRestoresCoherence(env: Env, entries: map<string, string>, db: Database, w: Write)
    requires Coherent(env, entries, db) && WriteOk(env, w)
    requires WriteTarget(env, w).None? || !MovesRow(Rows(db, w.table), w)
    ensures Coherent(env, Invalidated(env, entries, w), Applied(db, w))
  {
    var entries', db' := Invalidated(env, entries, w), Applied(db, w);
    forall t, sql | ColonFree(t) && SearchKey(env, t, sql) in entries'
      ensures entries'[SearchKey(env, t, sql)] == SearchEntry(env, Rows(db', t), sql)
    {
      InvalidatedIsSubmap(env, entries, w, SearchKey(env, t, sql));
      SearchEntriesGone(env, entries, w, sql);
      assert Rows(db', t) == Rows(db, t);
    }
    forall t, text | ColonFree(t) && PrimaryKey(env, t, text) in entries'
      ensures TellsRow(env, entries'[PrimaryKey(env, t, text)], Rows(db', t), env.pkName(t), text)
    {
      InvalidatedIsSubmap(env, entries, w, PrimaryKey(env, t, text));
      if t == w.table {
        forall id: nat | IdText(env.pkName(t), id) == text
          ensures Untouched(Rows(db, t), Rows(db', t), id)
        {
          SurvivorUntouched(env, entries, db, w, text, id);
        }
      } else {
        assert Rows(db', t) == Rows(db, t);
      }
    }
  }

  // ---------- Which key a read uses ----------

  /** The id text under which a read looks for its row, None when it goes through its SQL text. */
  function ReadTarget(env: Env, r: Read): Option<string> {
    KeyForRead(InspectedTexts(env, r.table, r.where))
  }

  /** Conditions that are all recognised, and resolve to one id, select exactly the row with that id. */
  lemma TargetMeaning(where: seq<Cond>, pk: string, row: Row)
    requires NotMixed(Texts(where, pk)) && KeyForRead(Texts(where, pk)).Some?
    requires forall i | 0 <= i < |where| :: Faithful(where[i], pk)
    ensures Matches(where, row) <==> KeyForRead(Texts(where, pk)).value == IdText(pk, row.id)
  {
    var texts := Texts(where, pk);
    var v := KeyForRead(texts).value;
    KeyForReadMeaning(texts, v);
    forall i | 0 <= i < |where| ensures where[i].holds(row) <==> v == IdText(pk, row.id) {
      assert texts[i] in texts && Faithful(where[i], pk);
    }
  }

  /** Hence what the database answers to such a read is what the primary entry must say. */
  lemma ReadTargetAnswer(env: Env, db: Database, r: Read, value: string)
    requires env.Valid() && ReadOk(env, r) && ReadTarget(env, r).Some?
    ensures TellsRow(env, value, Rows(db, r.table), env.pkName(r.table), ReadTarget(env, r).value) <==>
            value == match Reference(env, db, r) case Found(row) => env.encode(row) case _ => NULL_VALUE
  {
    var rows := Rows(db, r.table);
    forall i | i in rows { TargetMeaning(r.where, env.pkName(r.table), rows[i]); }
    assert SelectsByWhere(env, r);
    match env.first(r.sql, rows)
    case None =>
    case Some(i) =>
      forall j | j in rows && IdText(env.pkName(r.table), j) == ReadTarget(env, r).value ensures j == i {
        IdTextInjective(env.pkName(r.table), i, j);
      }
  }

  /** A row the database returned may be stored under its own id. */
  lemma FoundRowTells(env: Env, rows: Table, pk: string, i: nat)
    requires i in rows
    ensures TellsRow(env, env.encode(rows[i]), rows, pk, IdText(pk, i))
  {
    forall j: nat | IdText(pk, j) == IdText(pk, i) ensures j == i {
      IdTextInjective(pk, i, j);
    }
  }

  // ---------- Hits, and what a miss leaves behind ----------

  datatype SearchResult = Miss | KnownAbsent | Points(key: string)

  function PrimaryHit(env: Env, entries: map<string, string>, key: string): Option<Answer> {
    if key !in entries then None
    else if entries[key] == NULL_VALUE then Some(NotFound)
    else match env.decode(entries[key]) case Some(row) => Some(Found(row)) case None => Some(DecodeError)
  }

  function SearchHit(env: Env, entries: map<string, string>, table: string, key: string): SearchResult {
    if key !in entries then Miss
    else if entries[key] == NULL_VALUE then KnownAbsent
    else if ToUint64(entries[key]) == 0 || env.pkName(table) == "" then Miss
    else Points(PrimaryKey(env, table, IdText(env.pkName(table), ToUint64(entries[key]))))
  }

  /** What the cache answers to a read, if anything. */
  function Hit(env: Env, entries: map<string, string>, r: Read): Option<Answer> {
    match ReadTarget(env, r)
    case Some(text) => PrimaryHit(env, entries, PrimaryKey(env, r.table, text))
    case None =>
      match SearchHit(env, entries, r.table, SearchKey(env, r.table, r.sql))
      case Miss => None
      case KnownAbsent => Some(NotFound)
      case Points(key) => PrimaryHit(env, entries, key)
  }

  /** Losing the row a search entry points to does not lose that entry. */
  lemma HitByPointer(env: Env, entries: map<string, string>, entries': map<string, string>, r: Read, key: string)
    requires ReadTarget(env, r).None? && SearchHit(env, entries, r.table, SearchKey(env, r.table, r.sql)) == Points(key)
    requires entries' == entries || entries' == entries - {key}
    ensures Hit(env, entries', r) == PrimaryHit(env, entries', key)
  {
    var id := ToUint64(entries[SearchKey(env, r.table, r.sql)]);
    KeyKindsDisjoint(env.prefix, r.table, IdText(env.pkName(r.table), id), r.table, r.sql);
  }

  /** A hit on coherent entries is always the database's own answer. */
  lemma HitIsReference(env: Env, entries: map<string, string>, db: Database, r: Read)
    requires env.Valid() && Coherent(env, entries, db) && ReadOk(env, r) && Hit(env, entries, r).Some?
    ensures Hit(env, entries, r).value == Reference(env, db, r)
  {
    match ReadTarget(env, r)
    case Some(text) => ReadTargetAnswer(env, db, r, entries[PrimaryKey(env, r.table, text)]);
    case None =>
      assert SelectsByWhere(env, r);
      var first := env.first(r.sql, Rows(db, r.table));
      if first.Some? {
        DecimalIsNotNull(first.value);
        ToUint64OfDecimal(first.value);
        FoundRowTells(env, Rows(db, r.table), env.pkName(r.table), first.value);
      }
  }

  /** The entries after the database's answer to a read has been stored. */
  function Remembered(env: Env, entries: map<string, string>, r: Read, answer: Answer): map<string, string> {
    var value := if answer.Found? then env.encode(answer.row) else NULL_VALUE;
    match ReadTarget(env, r)
    case Some(text) => entries[PrimaryKey(env, r.table, text) := value]
    case None =>
      var key := SearchKey(env, r.table, r.sql);
      if !answer.Found? then entries[key := NULL_VALUE]
      else match DestText(env, r.table, answer.row.id)
        case None => entries
        case Some(text) => entries[key := Decimal(answer.row.id)][PrimaryKey(env, r.table, text) := value]
  }

  /** Storing the database's answer keeps every entry true. */
  lemma RememberedIsCoherent(env: Env, entries: map<string, string>, db: Database, r: Read)
    requires env.Valid() && Coherent(env, entries, db) && ReadOk(env, r)
    ensures Coherent(env, Remembered(env, entries, r, Reference(env, db, r)), db)
  {
    var rows, answer := Rows(db, r.table), Reference(env, db, r);
    var value := if answer.Found? then env.encode(answer.row) else NULL_VALUE;
    assert SelectsByWhere(env, r);
    match ReadTarget(env, r)
    case Some(text) =>
      ReadTargetAnswer(env, db, r, value);
      CoherentAfterPrimarySet(env, entries, db, r.table, text, value);
    case None =>
      CoherentAfterSearchSet(env, entries, db, r.table, r.sql);
      if answer.Found? && DestText(env, r.table, answer.row.id).Some? {
        FoundRowTells(env, rows, env.pkName(r.table), answer.row.id);
        CoherentAfterPrimarySet(env, entries[SearchKey(env, r.table, r.sql) := Decimal(answer.row.id)], db,
                                r.table, IdText(env.pkName(r.table), answer.row.id), value);
      }
  }

  /**
   After a miss, the stored answer is a hit, unless the read went by its SQL text and found a row
   whose id cannot be told apart from "no id" or does not read back as a 64-bit number.
   */
  lemma RememberedIsHitIff(env: Env, entries: map<string, string>, r: Read, answer: Answer)
    requires env.Valid() && !answer.DecodeError? && Hit(env, entries, r) == None
    ensures Hit(env, Remembered(env, entries, r, answer), r) == Some(answer) <==>
              ReadTarget(env, r).Some? || answer.NotFound? || (env.pkName(r.table) != "" && 0 < answer.row.id < PARSE_LIMIT)
  {
    if ReadTarget(env, r).None? && answer.Found? {
      var text := DestText(env, r.table, answer.row.id);
      if text.Some? {
        DecimalIsNotNull(answer.row.id);
        ToUint64OfDecimal(answer.row.id);
        KeyKindsDisjoint(env.prefix, r.table, text.value, r.table, r.sql);
      }
    }
  }

  // ---------- Writes that move rows ----------

  /** An update that assigns no primary column, or assigns it what it is. */
  ghost predicate KeepsIds(w: Write) {
    w.effect.Update? ==> forall row: Row | Affected(w, row) :: w.effect.change(row).id == row.id
  }

  lemma KeepsIdsMovesNothing(rows: Table, w: Write)
    requires KeepsIds(w)
    ensures !MovesRow(rows, w)
  {
  }
}
