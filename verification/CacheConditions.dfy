/**
 Where the query cache goes wrong, and exactly when (mdb/gm2c.go): mixed conditions, pinned
 updates that move a row, ids with leading zeros.
 */
module CacheConditions {
  import opened Wrappers
  import opened CacheKeys
  import opened Casts
  import opened WhereClauses
  import opened FreeStores
  import opened QueryCache

  // ---------- Mixed conditions ----------

  /** These conditions are one reading of these expressions: recognised ones mean their id. */
  ghost predicate Interprets(where: seq<Cond>, exprs: seq<Expression>, pk: string) {
    |where| == |exprs| && forall i | 0 <= i < |where| :: where[i].expr == exprs[i] && Faithful(where[i], pk)
  }

  /** The key chosen for the conditions stands for exactly the row they select. */
  ghost predicate KeyDenotes(where: seq<Cond>, pk: string) {
    forall row: Row :: Matches(where, row) <==> KeyForRead(Texts(where, pk)) == Some(IdText(pk, row.id))
  }

  /** The reading in which every unrecognised condition has the given truth value. */
  function UniformReading(exprs: seq<Expression>, pk: string, other: bool): (where: seq<Cond>)
    ensures Interprets(where, exprs, pk)
    ensures Texts(where, pk) == ExprTexts(exprs, pk)
  {
    seq(|exprs|, i requires 0 <= i < |exprs| =>
      var text := ClauseFindPrimaryCacheKey(exprs[i], pk);
      Cond(exprs[i], (row: Row) => if text != "" then text == IdText(pk, row.id) else other))
  }

  function ExprTexts(exprs: seq<Expression>, pk: string): seq<string> {
    seq(|exprs|, i requires 0 <= i < |exprs| => ClauseFindPrimaryCacheKey(exprs[i], pk))
  }

  /**
   findPrimaryCacheKey picks a correct key, whatever the unrecognised conditions mean, exactly
   when the conditions are not mixed.
   */
  lemma KeyDenotesIffNotMixed(exprs: seq<Expression>, pk: string)
    requires KeyForRead(ExprTexts(exprs, pk)).Some?
    requires forall t | t in ExprTexts(exprs, pk) && t != "" :: exists id: nat :: t == IdText(pk, id)
    ensures (forall where | Interprets(where, exprs, pk) :: KeyDenotes(where, pk)) <==> NotMixed(ExprTexts(exprs, pk))
  {
    var texts := ExprTexts(exprs, pk);
    if NotMixed(texts) {
      forall where | Interprets(where, exprs, pk) ensures KeyDenotes(where, pk) {
        assert Texts(where, pk) == texts;
        forall row: Row { TargetMeaning(where, pk, row); }
      }
    } else {
      MixedKeyFails(exprs, pk);
    }
  }

  /** The last condition is not recognised, and may hold: the row is selected, but the key has no id in it. */
  lemma LastUnrecognisedFails(exprs: seq<Expression>, pk: string, id: nat)
    requires Recognised(ExprTexts(exprs, pk)) == {IdText(pk, id)} && exprs != []
    requires ExprTexts(exprs, pk)[|exprs| - 1] == ""
    ensures var where := UniformReading(exprs, pk, true);
            Matches(where, Row(id, map[])) && KeyForRead(Texts(where, pk)) != Some(IdText(pk, id))
  {
    var texts, where, row := ExprTexts(exprs, pk), UniformReading(exprs, pk, true), Row(id, map[]);
    forall i | 0 <= i < |where| ensures where[i].holds(row) {
      assert texts[i] in texts;
      assert texts[i] != "" ==> texts[i] in Recognised(texts);
    }
  }

  /** An unrecognised condition is followed by a recognised one, and may fail: no row is selected, but the key names one. */
  lemma LastRecognisedFails(exprs: seq<Expression>, pk: string, id: nat, k: nat)
    requires Recognised(ExprTexts(exprs, pk)) == {IdText(pk, id)} && k < |exprs|
    requires ExprTexts(exprs, pk)[k] == "" && ExprTexts(exprs, pk)[|exprs| - 1] != ""
    ensures var where := UniformReading(exprs, pk, false);
            !Matches(where, Row(id, map[])) && KeyForRead(Texts(where, pk)) == Some(IdText(pk, id))
  {
    OneRecognised(ExprTexts(exprs, pk), IdText(pk, id));
    assert !UniformReading(exprs, pk, false)[k].holds(Row(id, map[]));
  }

  lemma OneRecognised(texts: seq<string>, v: string)
    requires Recognised(texts) == {v} && texts != [] && texts[|texts| - 1] != ""
    ensures KeyForRead(texts) == Some(v)
  {
    assert texts[|texts| - 1] in Recognised(texts);
  }

  lemma WrongKey(where: seq<Cond>, pk: string, row: Row)
    requires Matches(where, row) != (KeyForRead(Texts(where, pk)) == Some(IdText(pk, row.id)))
    ensures !KeyDenotes(where, pk)
  {
  }

  /** A read that has a key recognises exactly one id. */
  lemma OneIdRecognised(texts: seq<string>, pk: string) returns (id: nat)
    requires KeyForRead(texts).Some?
    requires forall t | t in texts && t != "" :: exists id: nat :: t == IdText(pk, id)
    ensures Recognised(texts) == {IdText(pk, id)} && texts != []
  {
    var t :| t in Recognised(texts);
    id :| t == IdText(pk, id);
    forall x | x in Recognised(texts) ensures x == t { SingletonIsUnique(Recognised(texts), x, t); }
  }

  /** The value of the last condition, recognised or not, is what goes wrong. */
  lemma MixedKeyFails(exprs: seq<Expression>, pk: string)
    requires KeyForRead(ExprTexts(exprs, pk)).Some? && !NotMixed(ExprTexts(exprs, pk))
    requires forall t | t in ExprTexts(exprs, pk) && t != "" :: exists id: nat :: t == IdText(pk, id)
    ensures exists where :: Interprets(where, exprs, pk) && !KeyDenotes(where, pk)
  {
    var texts := ExprTexts(exprs, pk);
    var id := OneIdRecognised(texts, pk);
    if texts[|texts| - 1] == "" {
      LastUnrecognisedFails(exprs, pk, id);
      WrongKey(UniformReading(exprs, pk, true), pk, Row(id, map[]));
    } else {
      var k :| 0 <= k < |texts| && texts[k] == "";
      LastRecognisedFails(exprs, pk, id, k);
      WrongKey(UniformReading(exprs, pk, false), pk, Row(id, map[]));
    }
  }

  /**
   A look-up by id under any further condition that is not recognised, as FindByID issues it
   (mdb/curd.go:217-221), is an instance: the key names the row even where the row fails the
   condition. With pk "id", id 5 and sql "is_admin = 1" this is a look-up of row 5 among admins.
   */
  lemma ConditionalLookupIsMixed(pk: string, id: nat, sql: string)
    requires ClauseFindPrimaryCacheKey(Raw(sql, []), pk) == ""
    ensures var exprs := [Raw(sql, []), In(true, [Decimal(id)])];
            var where := UniformReading(exprs, pk, false);
            && KeyForRead(Texts(where, pk)) == Some(IdText(pk, id))
            && forall row :: !Matches(where, row)
  {
    var exprs := [Raw(sql, []), In(true, [Decimal(id)])];
    var texts := ExprTexts(exprs, pk);
    assert texts == ["", IdText(pk, id)];
    assert Recognised(texts) == {IdText(pk, id)};
    var where := UniformReading(exprs, pk, false);
    forall row ensures !Matches(where, row) {
      assert texts[0] == "" && !where[0].holds(row);
    }
  }

  function ById(id: nat): Cond {
    Cond(In(true, [Decimal(id)]), (row: Row) => row.id == id)
  }

  lemma ByIdText(id: nat, pk: string)
    ensures Texts([ById(id)], pk) == [IdText(pk, id)] && KeyForRead([IdText(pk, id)]) == Some(IdText(pk, id))
  {
    assert Recognised([IdText(pk, id)]) == {IdText(pk, id)};
  }

  lemma ConditionByIdText(c: Cond, id: nat, pk: string)
    requires ClauseFindPrimaryCacheKey(c.expr, pk) == ""
    ensures KeyForRead(Texts([c, ById(id)], pk)) == Some(IdText(pk, id))
  {
    var texts := Texts([c, ById(id)], pk);
    assert texts == ["", IdText(pk, id)];
    assert Recognised(texts) == {IdText(pk, id)};
  }

  lemma RowByIdIsFound(env: Env, db: Database, r: Read, id: nat)
    requires SelectsByWhere(env, r) && id in Rows(db, r.table)
    requires forall row: Row :: Matches(r.where, row) ==> row.id == id
    ensures var row := Rows(db, r.table)[id];
            Reference(env, db, r) == if Matches(r.where, row) then Found(row) else NotFound
  {
  }

  /**
   The run that goes wrong: read a row by id under a condition that is not recognised, then read
   it by id alone. The second read is answered with the row if and only if the row met the
   condition of the first; otherwise the cache says that there is no such row.
   */
  lemma HiddenByConditionIff(env: Env, db: Database, table: string, id: nat, c: Cond, sql1: string, sql2: string)
    requires env.Valid() && env.pkName(table) != "" && id in Rows(db, table)
    requires ClauseFindPrimaryCacheKey(c.expr, env.pkName(table)) == ""
    requires SelectsByWhere(env, Read(table, [c, ById(id)], sql1)) && SelectsByWhere(env, Read(table, [ById(id)], sql2))
    ensures
      var conditional, plain, row := Read(table, [c, ById(id)], sql1), Read(table, [ById(id)], sql2), Rows(db, table)[id];
      && Reference(env, db, plain) == Found(row)
      && Hit(env, Remembered(env, map[], conditional, Reference(env, db, conditional)), plain)
           == Some(if c.holds(row) then Found(row) else NotFound)
  {
    var pk, row := env.pkName(table), Rows(db, table)[id];
    var conditional, plain := Read(table, [c, ById(id)], sql1), Read(table, [ById(id)], sql2);
    ByIdText(id, pk);
    ConditionByIdText(c, id, pk);
    assert forall r: Row :: Matches(conditional.where, r) ==> conditional.where[1].holds(r);
    assert conditional.where[0] == c && (Matches(conditional.where, row) ==> conditional.where[0].holds(row));
    RowByIdIsFound(env, db, conditional, id);
    assert forall r: Row :: Matches(plain.where, r) ==> plain.where[0].holds(r);
    RowByIdIsFound(env, db, plain, id);
  }

  // ---------- Writes that move rows ----------

  /** The cache that remembers nothing but that a table has no row under one id. */
  function OnlyAbsent(env: Env, table: string, id: nat): map<string, string> {
    map[PrimaryKey(env, table, IdText(env.pkName(table), id)) := NULL_VALUE]
  }

  lemma OnlyAbsentIsCoherent(env: Env, db: Database, table: string, id: nat)
    requires ColonFree(table) && id !in Rows(db, table)
    ensures Coherent(env, OnlyAbsent(env, table, id), db)
  {
    var pk, key := env.pkName(table), PrimaryKey(env, table, IdText(env.pkName(table), id));
    forall t, text | ColonFree(t) && PrimaryKey(env, t, text) == key ensures t == table && text == IdText(pk, id) {
      PrimaryKeysDistinct(env.prefix, t, text, table, IdText(pk, id));
    }
    forall t, sql ensures SearchKey(env, t, sql) != key {
      KeyKindsDisjoint(env.prefix, table, IdText(pk, id), t, sql);
    }
    forall i | i in Rows(db, table) && IdText(pk, i) == IdText(pk, id) ensures false {
      IdTextInjective(pk, i, id);
    }
  }

  /** A pinned write removes no other primary entry. */
  lemma EntrySurvivesIff(env: Env, entries: map<string, string>, w: Write, text: string)
    requires PrimaryKey(env, w.table, text) in entries
    ensures PrimaryKey(env, w.table, text) in Invalidated(env, entries, w) <==>
              WriteTarget(env, w).Some? && WriteTarget(env, w) != Some(text)
  {
    var key, prefix := PrimaryKey(env, w.table, text), SearchKeyPrefix(env.prefix, w.table);
    KeysUnderPrefixes(env.prefix, w.table, text);
    StartsWithSingle(key, PrimaryKeyPrefix(env.prefix, w.table));
    StartsWithSingle(key, prefix);
    KindsOfPrefixDiffer(env.prefix, w.table, text);
    if WriteTarget(env, w).Some? && PrimaryKey(env, w.table, WriteTarget(env, w).value) == key {
      SameTableSameKey(env.prefix, w.table, WriteTarget(env, w).value, text);
    }
  }

  lemma KindsOfPrefixDiffer(pre: string, table: string, text: string)
    ensures !(SearchKeyPrefix(pre, table) <= PrimaryCacheKey(pre, table, text))
  {
    var n := |GLOBAL_PREFIX| + 1 + |pre| + 1;
    assert PrimaryCacheKey(pre, table, text)[n] == 'p' && SearchKeyPrefix(pre, table)[n] == 's';
  }

  lemma SameTableSameKey(pre: string, table: string, x: string, y: string)
    requires PrimaryCacheKey(pre, table, x) == PrimaryCacheKey(pre, table, y)
    ensures x == y
  {
    var head := PrimaryKeyPrefix(pre, table) + SEPARATOR;
    assert x == (head + x)[|head|..] && y == (head + y)[|head|..];
  }

  /**
   A write keeps every coherent cache coherent if and only if it is not pinned to one row, or
   leaves every row under its id: where a pinned update moves a row, a cache that remembered "no
   such row" under the new id keeps saying so.
   */
  lemma InvalidationSufficesIff(env: Env, db: Database, w: Write)
    requires env.Valid() && WriteOk(env, w)
    ensures (forall entries | Coherent(env, entries, db) :: Coherent(env, Invalidated(env, entries, w), Applied(db, w)))
       <==> (WriteTarget(env, w).None? || !MovesRow(Rows(db, w.table), w))
  {
    if WriteTarget(env, w).None? || !MovesRow(Rows(db, w.table), w) {
      forall entries | Coherent(env, entries, db) ensures Coherent(env, Invalidated(env, entries, w), Applied(db, w)) {
        InvalidationRestoresCoherence(env, entries, db, w);
      }
    } else {
      var entries := MovedRowIsMissed(env, db, w);
    }
  }

  /** A pinned update can move only its target, and only to an id that is free. */
  lemma MovedRow(env: Env, rows: Table, w: Write) returns (j: nat)
    requires WriteOk(env, w) && WriteTarget(env, w).Some? && MovesRow(rows, w)
    ensures j !in rows && WriteTarget(env, w) != Some(IdText(env.pkName(w.table), j)) && j in AfterWrite(rows, w)
  {
    var pk := env.pkName(w.table);
    var i :| i in rows && Changed(w, rows[i]).id != i;
    j := Changed(w, rows[i]).id;
    if WriteTarget(env, w) != Some(IdText(pk, i)) {
      OtherRowNotAffected(env, rows, w, i);
    }
    if IdText(pk, j) == IdText(pk, i) {
      IdTextInjective(pk, i, j);
    }
    if j in rows {
      OtherRowNotAffected(env, rows, w, j);
    }
  }

  lemma MovedRowIsMissed(env: Env, db: Database, w: Write) returns (entries: map<string, string>)
    requires env.Valid() && WriteOk(env, w) && WriteTarget(env, w).Some? && MovesRow(Rows(db, w.table), w)
    ensures Coherent(env, entries, db) && !Coherent(env, Invalidated(env, entries, w), Applied(db, w))
  {
    var j := MovedRow(env, Rows(db, w.table), w);
    var text := IdText(env.pkName(w.table), j);
    entries := OnlyAbsent(env, w.table, j);
    OnlyAbsentIsCoherent(env, db, w.table, j);
    EntrySurvivesIff(env, entries, w, text);
    InvalidatedIsSubmap(env, entries, w, PrimaryKey(env, w.table, text));
    var rows' := Rows(Applied(db, w), w.table);
    assert !TellsRow(env, NULL_VALUE, rows', env.pkName(w.table), text) by {
      assert j in rows' && IdText(env.pkName(w.table), j) == text;
    }
  }

  // ---------- Ids with leading zeros ----------

  /** A condition "pk = d" that is written out. */
  function WrittenId(pk: string, d: string): Cond
    requires AllDigits(d)
  {
    Cond(Raw(pk + " = " + d, []), (row: Row) => row.id == DecimalValue(d))
  }

  /** It is recognised as what it means exactly if it is written without leading zeros. */
  lemma WrittenIdFaithfulIff(pk: string, d: string)
    requires PlainName(pk) && d != "" && AllDigits(d)
    ensures Faithful(WrittenId(pk, d), pk) <==> Canonical(d)
  {
    var c, n := WrittenId(pk, d), DecimalValue(d);
    WrittenIdRecognisedIff(pk, d);
    if Canonical(d) {
      forall row: Row ensures c.holds(row) <==> IdText(pk, n) == IdText(pk, row.id) {
        if IdText(pk, n) == IdText(pk, row.id) { IdTextInjective(pk, n, row.id); }
      }
    } else {
      assert c.holds(Row(n, map[]));
    }
  }

  /** The update of row n through its model, UPDATE ... WHERE pk = n. */
  function UpdateById(table: string, pk: string, n: nat, changed: Row): Write {
    Write(table, [Cond(Eq(Some(pk), Decimal(n)), (row: Row) => row.id == n)], true, true, 0, Update((row: Row) => changed))
  }

  /**
   Read "id = 007", update row 7, read "id = 007" again: the second read is answered with the old
   row exactly when the id is written with leading zeros, and by the database otherwise.
   */
  lemma StaleReadIff(env: Env, table: string, d: string, sql: string, before: Row, after: Row)
    requires env.Valid() && PlainName(env.pkName(table)) && d != "" && AllDigits(d)
    requires before.id == after.id == DecimalValue(d)
    requires SelectsByWhere(env, Read(table, [WrittenId(env.pkName(table), d)], sql))
    ensures
      var r := Read(table, [WrittenId(env.pkName(table), d)], sql);
      var w := UpdateById(table, env.pkName(table), before.id, after);
      var db: Database := map[table := map[before.id := before]];
      var remembered := Remembered(env, map[], r, Reference(env, db, r));
      && Reference(env, db, r) == Found(before)
      && Reference(env, Applied(db, w), r) == Found(after)
      && Hit(env, Invalidated(env, remembered, w), r) == if Canonical(d) then None else Some(Found(before))
  {
    var pk, n := env.pkName(table), before.id;
    var r, w := Read(table, [WrittenId(pk, d)], sql), UpdateById(table, pk, n, after);
    var db: Database := map[table := map[n := before]];
    OneConditionTexts(env, table, d);
    OnlyRowIsFound(env, db, r, before);
    OneRowUpdated(db, table, pk, before, after);
    OnlyRowIsFound(env, Applied(db, w), r, after);
    UpdateByIdTarget(env, table, n, after);
    WrittenIdRecognisedIff(pk, d);
    var remembered := Remembered(env, map[], r, Found(before));
    EntrySurvivesIff(env, remembered, w, pk + "=" + d);
  }

  lemma OneConditionTexts(env: Env, table: string, d: string)
    requires PlainName(env.pkName(table)) && d != "" && AllDigits(d)
    ensures KeyForRead(InspectedTexts(env, table, [WrittenId(env.pkName(table), d)])) == Some(env.pkName(table) + "=" + d)
  {
    var pk := env.pkName(table);
    WrittenIdRecognisedIff(pk, d);
    assert Texts([WrittenId(pk, d)], pk) == [pk + "=" + d];
    assert Recognised([pk + "=" + d]) == {pk + "=" + d};
  }

  lemma OnlyRowIsFound(env: Env, db: Database, r: Read, row: Row)
    requires SelectsByWhere(env, r) && Rows(db, r.table) == map[row.id := row] && Matches(r.where, row)
    ensures Reference(env, db, r) == Found(row)
  {
  }

  lemma OneRowUpdated(db: Database, table: string, pk: string, before: Row, after: Row)
    requires before.id == after.id && Rows(db, table) == map[before.id := before]
    ensures Rows(Applied(db, UpdateById(table, pk, before.id, after)), table) == map[after.id := after]
  {
    var rows, w := Rows(db, table), UpdateById(table, pk, before.id, after);
    assert Matches(w.where, before) && Changed(w, before) == after;
    UnmovedIds(rows, w);
  }

  lemma UpdateByIdTarget(env: Env, table: string, n: nat, changed: Row)
    requires env.pkName(table) != ""
    ensures WriteTarget(env, UpdateById(table, env.pkName(table), n, changed)) == Some(IdText(env.pkName(table), n))
  {
    var pk := env.pkName(table);
    assert Texts(UpdateById(table, pk, n, changed).where, pk) == [IdText(pk, n)];
  }
}
