/**
 How the query cache recognises a primary-key condition in a WHERE clause
 (mdb/gm2c.go, clauseFindPrimaryCacheKey and findPrimaryCacheKey).
 */
module WhereClauses {
  import opened Wrappers
  import opened CacheKeys

  /** One top-level expression of a WHERE clause, as far as the cache looks at it. */
  datatype Expression =
    | In(isPrimaryColumn: bool, values: seq<string>)
    | Eq(column: Option<string>, value: string)
    | Raw(sql: string, vars: seq<string>)
    | Other

  // ---------- String helpers of the raw-SQL branch ----------

  predicate IsSpace(c: char) {
    c == ' ' || 9 as char <= c <= 13 as char
  }

  function TrimLeft(s: string): string {
    if s != "" && IsSpace(s[0]) then TrimLeft(s[1..]) else s
  }

  function TrimRight(s: string): string {
    if s != "" && IsSpace(s[|s| - 1]) then TrimRight(s[..|s| - 1]) else s
  }

  function TrimSpace(s: string): string {
    TrimRight(TrimLeft(s))
  }

  /** Replaces every occurrence of the character c by the given text. */
  function Substitute(s: string, c: char, text: string): string {
    if s == "" then ""
    else (if s[0] == c then text else [s[0]]) + Substitute(s[1..], c, text)
  }

  function NormaliseSql(sql: string, vars: seq<string>): string {
    var sq := TrimSpace(sql);
    var sq := if '?' in sq && |vars| == 1 then Substitute(sq, '?', vars[0]) else sq;
    Substitute(sq, ' ', "")
  }

  /** The id text of one condition, or "" when it is not recognised as a primary-key equality. */
  function ClauseFindPrimaryCacheKey(expr: Expression, pk: string): string {
    var id := match expr
      case In(isPrimaryColumn, values) =>
        if isPrimaryColumn && |values| == 1 then values[0] else ""
      case Eq(column, value) =>
        if column == Some(pk) then value else ""
      case Raw(sql, vars) =>
        var sq := NormaliseSql(sql, vars);
        if '=' !in pk && pk + "=" <= sq && AllDigits(sq[|pk| + 1..]) then sq[|pk| + 1..] else ""
      case Other => "";
    if id == "" then "" else pk + "=" + id
  }

  // ---------- Recognition of the usual spelling ----------

  lemma {:induction false} SubstituteAbsent(s: string, c: char, text: string)
    requires c !in s
    ensures Substitute(s, c, text) == s
  {
    if s != "" {
      SubstituteAbsent(s[1..], c, text);
    }
  }

  lemma {:induction false} SubstituteConcat(a: string, b: string, c: char, text: string)
    ensures Substitute(a + b, c, text) == Substitute(a, c, text) + Substitute(b, c, text)
  {
    if a == "" {
      assert a + b == b;
    } else {
      assert (a + b)[1..] == a[1..] + b;
      SubstituteConcat(a[1..], b, c, text);
    }
  }

  /** A column name that needs no quoting. */
  predicate PlainName(pk: string) {
    pk != "" && forall c | c in pk :: !IsSpace(c) && c != '?' && c != '='
  }

  /** Filling in the one placeholder of "id = ?". */
  lemma PlaceholderFilled(pk: string, d: string)
    requires PlainName(pk)
    ensures Substitute(pk + " = ?", '?', d) == pk + " = " + d
  {
    var head := pk + " = ";
    assert pk + " = ?" == head + "?";
    SubstituteConcat(head, "?", '?', d);
    SubstituteAbsent(head, '?', d);
    assert "?"[1..] == "";
  }

  lemma SpacedEquals()
    ensures Substitute(" = ", ' ', "") == "="
  {
    assert " = "[1..] == "= " && "= "[1..] == " " && " "[1..] == "";
  }

  lemma SpacesRemoved(column: string, value: string)
    requires PlainName(column)
    ensures Substitute(column + " = " + value, ' ', "") == column + "=" + Substitute(value, ' ', "")
  {
    calc {
      Substitute(column + " = " + value, ' ', "");
      { SubstituteConcat(column + " = ", value, ' ', ""); }
      Substitute(column + " = ", ' ', "") + Substitute(value, ' ', "");
      { SubstituteConcat(column, " = ", ' ', ""); }
      Substitute(column, ' ', "") + Substitute(" = ", ' ', "") + Substitute(value, ' ', "");
      { SpacedEquals(); SubstituteAbsent(column, ' ', ""); }
      column + "=" + Substitute(value, ' ', "");
    }
  }

  /** Removing the blanks of "id = 7". */
  lemma BlanksRemoved(pk: string, d: string)
    requires PlainName(pk) && AllDigits(d)
    ensures Substitute(pk + " = " + d, ' ', "") == pk + "=" + d
  {
    SpacesRemoved(pk, d);
    SubstituteAbsent(d, ' ', "");
  }

  /** The form written by hand, "id = ?" with one argument, is recognised as that row's key. */
  lemma PlaceholderEqualityRecognised(pk: string, id: nat)
    requires PlainName(pk)
    ensures ClauseFindPrimaryCacheKey(Raw(pk + " = ?", [Decimal(id)]), pk) == IdText(pk, id)
  {
    var sql, d := pk + " = ?", Decimal(id);
    assert sql[0] == pk[0] && pk[0] in pk && sql[|sql| - 1] == '?';
    assert TrimLeft(sql) == sql && TrimRight(sql) == sql;
    PlaceholderFilled(pk, d);
    BlanksRemoved(pk, d);
    assert '?' in sql;
    assert NormaliseSql(sql, [d]) == pk + "=" + d;
    assert (pk + "=" + d)[|pk| + 1..] == d;
  }

  /**
   An id written out, "id = 7", is recognised as the key of the row with that id exactly if it is
   written without leading zeros; "id = 007" gets a key of its own, which an update of row 7 through
   its model does not remove.
   */
  lemma WrittenIdRecognisedIff(pk: string, d: string)
    requires PlainName(pk) && d != "" && AllDigits(d)
    ensures ClauseFindPrimaryCacheKey(Raw(pk + " = " + d, []), pk) == pk + "=" + d
    ensures ClauseFindPrimaryCacheKey(Raw(pk + " = " + d, []), pk) == IdText(pk, DecimalValue(d)) <==> Canonical(d)
  {
    var sql, n := pk + " = " + d, DecimalValue(d);
    assert sql[0] == pk[0] && pk[0] in pk && sql[|sql| - 1] == d[|d| - 1];
    assert TrimLeft(sql) == sql && TrimRight(sql) == sql;
    BlanksRemoved(pk, d);
    assert NormaliseSql(sql, []) == pk + "=" + d;
    assert (pk + "=" + d)[|pk| + 1..] == d && IdText(pk, n)[|pk| + 1..] == Decimal(n);
    PrintedFormIff(d);
  }

  /** A condition on another column is not recognised, whatever the names have in common. */
  lemma OtherColumnNotRecognised(column: string, value: string, pk: string)
    requires PlainName(pk) && PlainName(column) && column != pk && value != "" && !IsSpace(value[|value| - 1])
    ensures ClauseFindPrimaryCacheKey(Raw(column + " = " + value, []), pk) == ""
  {
    var sql, rest := column + " = " + value, Substitute(value, ' ', "");
    assert sql[0] == column[0] && column[0] in column && sql[|sql| - 1] == value[|value| - 1];
    assert TrimLeft(sql) == sql && TrimRight(sql) == sql;
    SpacesRemoved(column, value);
    assert NormaliseSql(sql, []) == column + "=" + rest;
    HeadsDiffer(column, rest, pk);
  }

  lemma HeadsDiffer(column: string, rest: string, pk: string)
    requires PlainName(pk) && PlainName(column) && column != pk
    ensures !(pk + "=" <= column + "=" + rest)
  {
    var a, b := pk + "=", column + "=" + rest;
    if |pk| < |column| {
      assert a[|pk|] == '=' && b[|pk|] == column[|pk|] && column[|pk|] in column;
    } else if |column| < |pk| {
      assert b[|column|] == '=' && a[|column|] == pk[|column|] && pk[|column|] in pk;
    } else {
      assert a[..|pk|] == pk && b[..|pk|] == column;
    }
  }

  // ---------- findPrimaryCacheKey ----------

  predicate NotMixed(texts: seq<string>) {
    (forall t | t in texts :: t != "") || (forall t | t in texts :: t == "")
  }

  function Recognised(texts: seq<string>): set<string> {
    set t | t in texts && t != ""
  }

  /** For a write, the first recognised condition decides. */
  function FirstFound(texts: seq<string>): Option<string> {
    if texts == [] then None
    else if texts[0] != "" then Some(texts[0])
    else FirstFound(texts[1..])
  }

  /**
   For a read, exactly one id must have been recognised. The key is then built from the
   value of the LAST condition, whether or not it was the recognised one.
   */
  function KeyForRead(texts: seq<string>): Option<string> {
    if |Recognised(texts)| != 1 then None else Some(texts[|texts| - 1])
  }

  function KeyForWrite(texts: seq<string>): Option<string> {
    FirstFound(texts)
  }

  lemma {:induction false} FirstFoundMeaning(texts: seq<string>)
    ensures FirstFound(texts) == None <==> forall t | t in texts :: t == ""
    ensures FirstFound(texts).Some? ==> FirstFound(texts).value in texts && FirstFound(texts).value != ""
  {
    if texts != [] {
      var rest := texts[1..];
      FirstFoundMeaning(rest);
      assert texts[0] in texts;
      assert forall t | t in rest :: t in texts;
      if texts[0] == "" && FirstFound(rest) == None {
        forall t | t in texts ensures t == "" {
          assert t == texts[0] || t in rest;
        }
      }
    }
  }

  /** The walk over the conditions, one at a time. */
  lemma NextCondition(texts: seq<string>, i: nat)
    requires i < |texts|
    ensures Recognised(texts[..i + 1]) == Recognised(texts[..i]) + if texts[i] != "" then {texts[i]} else {}
    ensures FirstFound(texts[i..]) == if texts[i] != "" then Some(texts[i]) else FirstFound(texts[i + 1..])
  {
    assert texts[..i + 1] == texts[..i] + [texts[i]];
    assert texts[i..][1..] == texts[i + 1..];
  }

  lemma SingletonIsUnique<T>(s: set<T>, x: T, y: T)
    requires |s| == 1 && x in s && y in s
    ensures x == y
  {
    assert |s - {x}| == 0;
    assert s - {x} == {};
  }

  /** On conditions that are all primary-key equalities or none, a key is found iff they all name one id. */
  lemma KeyForReadMeaning(texts: seq<string>, v: string)
    requires NotMixed(texts)
    ensures KeyForRead(texts) == Some(v) <==> v != "" && texts != [] && forall t | t in texts :: t == v
  {
    var found := Recognised(texts);
    if KeyForRead(texts) == Some(v) {
      var x :| x in found;
      assert texts[|texts| - 1] in texts;
      assert v in found;
      forall t | t in texts ensures t == v {
        assert t in found;
        SingletonIsUnique(found, t, v);
      }
    }
    if v != "" && texts != [] && forall t | t in texts :: t == v {
      assert texts[|texts| - 1] in texts;
      assert found == {v};
    }
  }
}
