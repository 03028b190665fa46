/**
 How an update statement gets its version condition and its version bump
 (mdb/version.go, UpdateClause.ModifyStatement and CreateClause.setVersionColumn).
 */
module VersionClauses {
  import opened Wrappers

  datatype Row = Row(version: int, columns: map<string, string>)

  /**
   A top-level WHERE expression. gorm joins expressions with AND, except that an OR condition
   with a single member is joined to what precedes it with OR; AND binds tighter. Group is an
   explicit conjunction, in parentheses.
   */
  datatype Expr =
    | Plain(holds: Row -> bool)
    | SingleOr(holds: Row -> bool)
    | Group(exprs: seq<Expr>)

  predicate Sat(e: Expr, row: Row)
    decreases e, 0
  {
    match e
    case Plain(holds) => holds(row)
    case SingleOr(holds) => holds(row)
    case Group(exprs) => SatAll(exprs, row)
  }

  /** The meaning of a WHERE clause; no expression at all selects everything. */
  predicate SatAll(exprs: seq<Expr>, row: Row)
    decreases exprs, 1
  {
    exprs == [] || SatFrom(exprs[1..], Sat(exprs[0], row), row)
  }

  /** run is the value of the conjunction read so far. */
  predicate SatFrom(exprs: seq<Expr>, run: bool, row: Row)
    decreases exprs, 0
  {
    if exprs == [] then run
    else if exprs[0].SingleOr? then run || SatFrom(exprs[1..], Sat(exprs[0], row), row)
    else SatFrom(exprs[1..], run && Sat(exprs[0], row), row)
  }

  predicate HasSingleOr(exprs: seq<Expr>) {
    exists i | 0 <= i < |exprs| :: exprs[i].SingleOr?
  }

  // ---------- How a clause is built ----------

  /** The first expression that is not a lone alternative, |exprs| when there is none. */
  function FirstOrdinary(exprs: seq<Expr>): (k: nat)
    ensures k <= |exprs| && (k < |exprs| ==> !exprs[k].SingleOr?) && forall i | 0 <= i < k :: exprs[i].SingleOr?
  {
    if exprs == [] || !exprs[0].SingleOr? then 0 else 1 + FirstOrdinary(exprs[1..])
  }

  /** gorm puts the first ordinary expression in front, in exchange for a lone alternative there. */
  function Fronted(exprs: seq<Expr>): seq<Expr> {
    var k := FirstOrdinary(exprs);
    if 0 < k < |exprs| then exprs[0 := exprs[k]][k := exprs[0]] else exprs
  }

  predicate IsOneGroup(exprs: seq<Expr>) {
    |exprs| == 1 && exprs[0].Group?
  }

  /** A clause that is one conjunction is built without its parentheses. */
  function Opened(exprs: seq<Expr>): seq<Expr> {
    if IsOneGroup(exprs) then exprs[0].exprs else exprs
  }

  /** The rows that the SQL text built from a clause selects. */
  predicate Selects(exprs: seq<Expr>, row: Row) {
    SatAll(Fronted(Opened(exprs)), row)
  }

  function VersionIs(v: int): Expr {
    Plain((row: Row) => row.version == v)
  }

  // ---------- The rewriting, as functions ----------

  /** An alternative is put in parentheses before anything is added to it. */
  function Parenthesised(exprs: seq<Expr>): seq<Expr> {
    if |exprs| > 1 && HasSingleOr(exprs) then [Group(exprs)] else exprs
  }

  function VersionCondition(unscoped: bool, modelVersion: Option<int>): seq<Expr> {
    if !unscoped && modelVersion.Some? then [VersionIs(modelVersion.value)] else []
  }

  /** A field of the argument. version is the column of the version field. */
  datatype Field = Field(column: string, value: string, isZero: bool, autoUpdateTime: bool, updatable: bool)

  /** What Select and Omit leave of the columns. */
  datatype Selection = Selection(columns: map<string, bool>, restricted: bool, skipHooks: bool)

  predicate IsAssigned(f: Field, version: string, sel: Selection) {
    && f.column != version && f.column != ""
    && (if f.column in sel.columns then sel.columns[f.column] else !sel.restricted || !sel.skipHooks)
    && !f.autoUpdateTime
    && (f.column in sel.columns || !f.isZero) && f.updatable
  }

  /** The columns an update sets, from a struct's fields; a later field of the same column wins. */
  function Assigned(fields: seq<Field>, version: string, sel: Selection): map<string, string> {
    if fields == [] then map[]
    else
      var f, before := fields[|fields| - 1], Assigned(fields[..|fields| - 1], version, sel);
      if IsAssigned(f, version, sel) then before[f.column := f.value] else before
  }

  /** SET columns and the version column to itself plus one. */
  datatype Assignment = Assignment(columns: map<string, string>, bumpsVersion: bool)

  /** The argument of an update: a struct, or a map already. */
  datatype Dest = StructDest(fields: seq<Field>) | MapDest(columns: map<string, string>)

  class Statement {
    const version: string
    const modelVersion: Option<int>
    const unscoped: bool
    const selection: Selection
    var where: seq<Expr>
    var dest: Dest
    var bumpsVersion: bool
    var versionEnabled: bool

    constructor (version: string, modelVersion: Option<int>, unscoped: bool, selection: Selection, where: seq<Expr>, dest: Dest)
      ensures this.version == version && this.modelVersion == modelVersion && this.unscoped == unscoped
      ensures this.selection == selection && this.where == where && this.dest == dest
      ensures !bumpsVersion && !versionEnabled
    {
      this.version, this.modelVersion, this.unscoped, this.selection := version, modelVersion, unscoped, selection;
      this.where, this.dest := where, dest;
      bumpsVersion, versionEnabled := false, false;
    }

    /** Runs once per statement, however often the clause is added. */
    method ModifyStatement()
      modifies this
      ensures old(versionEnabled) ==> unchanged(this)
      ensures !old(versionEnabled) ==>
        && versionEnabled && bumpsVersion
        && where == Parenthesised(old(where)) + VersionCondition(unscoped, modelVersion)
        && dest == MapDest((match old(dest)
                            case StructDest(fields) => Assigned(fields, version, selection)
                            case MapDest(columns) => columns) - {version})
    {
      if versionEnabled {
        return;
      }
      if |where| > 1 {
        var i := 0;
        while i < |where|
          invariant 0 <= i <= |where|
          invariant where == old(where)
          invariant forall j | 0 <= j < i :: !where[j].SingleOr?
        {
          if where[i].SingleOr? {
            where := [Group(where)];
            break;
          }
          i := i + 1;
        }
      }
      assert where == Parenthesised(old(where));
      if !unscoped {
        if modelVersion.Some? {
          where := where + [VersionIs(modelVersion.value)];
        }
      }
      if dest.StructDest? {
        var fields := dest.fields;
        var d: map<string, string> := map[];
        for i := 0 to |fields|
          invariant d == Assigned(fields[..i], version, selection)
          invariant dest == old(dest) && !versionEnabled
          invariant where == Parenthesised(old(where)) + VersionCondition(unscoped, modelVersion)
        {
          assert fields[..i + 1][..i] == fields[..i];
          var f := fields[i];
          if f.column == version || f.column == "" {
            continue;
          }
          var ok := f.column in selection.columns;
          if (ok && selection.columns[f.column]) || (!ok && (!selection.restricted || !selection.skipHooks)) {
            if f.autoUpdateTime {
              continue;
            }
            if (ok || !f.isZero) && f.updatable {
              d := d[f.column := f.value];
            }
          }
        }
        assert fields[..|fields|] == fields;
        dest := MapDest(d);
      }
      // The version column is set to an expression, whatever the argument held for it.
      dest := MapDest(dest.columns - {version});
      bumpsVersion := true;
      versionEnabled := true;
    }
  }

  // ---------- What the rewriting means ----------

  lemma {:induction false} AppendToConjunction(exprs: seq<Expr>, e: Expr, run: bool, row: Row)
    requires !HasSingleOr(exprs) && !e.SingleOr?
    ensures SatFrom(exprs + [e], run, row) == (SatFrom(exprs, run, row) && Sat(e, row))
  {
    if exprs == [] {
      assert exprs + [e] == [e];
      assert [e][1..] == [];
    } else {
      assert (exprs + [e])[1..] == exprs[1..] + [e];
      assert !HasSingleOr(exprs[1..]);
      AppendToConjunction(exprs[1..], e, run && Sat(exprs[0], row), row);
    }
  }

  /** Without a version, parentheses alone change nothing. */
  lemma ParenthesesKeepWhere(exprs: seq<Expr>, row: Row)
    ensures Selects(Parenthesised(exprs), row) == Selects(exprs, row)
  {
  }

  /** The clause is one alternative and nothing else. */
  predicate IsLoneAlternative(exprs: seq<Expr>) {
    |exprs| == 1 && exprs[0].SingleOr?
  }

  /** The rewritten clause selects the rows at that version for which the expressions hold, read in their order. */
  lemma RewrittenMeaning(exprs: seq<Expr>, v: int, row: Row)
    requires !IsLoneAlternative(exprs)
    ensures Selects(Parenthesised(exprs) + [VersionIs(v)], row) == (SatAll(exprs, row) && row.version == v)
  {
    var inner, guard := Parenthesised(exprs), VersionIs(v);
    var all := inner + [guard];
    assert Sat(guard, row) == (row.version == v);
    if inner == [] {
      assert all == [guard] && [guard][1..] == [];
      assert Fronted(Opened(all)) == all;
      assert SatAll(all, row) == Sat(guard, row);
    } else {
      assert !inner[0].SingleOr? && !HasSingleOr(inner[1..]);
      assert all[1..] == inner[1..] + [guard];
      AppendToConjunction(inner[1..], guard, Sat(inner[0], row), row);
      assert all[0] == inner[0] && Fronted(Opened(all)) == all;
      assert SatAll(all, row) == (SatAll(inner, row) && Sat(guard, row));
      assert SatAll(inner, row) == SatAll(exprs, row) by {
        if inner != exprs {
          assert inner[1..] == [];
        }
      }
    }
  }

  lemma OneGroupMeaning(exprs: seq<Expr>, row: Row)
    ensures IsOneGroup(exprs) ==> SatAll(exprs, row) == SatAll(exprs[0].exprs, row)
  {
    if IsOneGroup(exprs) {
      assert exprs == [exprs[0]] && exprs[1..] == [];
    }
  }

  /** The rewritten clause selects exactly what the original did, at the given version. */
  predicate Guards(exprs: seq<Expr>, v: int, row: Row) {
    Selects(Parenthesised(exprs) + [VersionIs(v)], row) == (Selects(exprs, row) && row.version == v)
  }

  /**
   A lone alternative stands first, and is moved by gorm: behind the version condition when it is
   all there is, otherwise behind an ordinary expression, from where the parentheses keep it.
   */
  predicate Misplaced(exprs: seq<Expr>) {
    var xs := Opened(exprs);
    IsLoneAlternative(exprs) || (xs != [] && xs[0].SingleOr? && FirstOrdinary(xs) < |xs|)
  }

  lemma VersionGuardsWhere(exprs: seq<Expr>, v: int, row: Row)
    requires !Misplaced(exprs)
    ensures Guards(exprs, v, row)
  {
    RewrittenMeaning(exprs, v, row);
    OneGroupMeaning(exprs, row);
  }

  /** The same clause with other conditions in it. */
  predicate SameShape(a: seq<Expr>, b: seq<Expr>) {
    && IsOneGroup(a) == IsOneGroup(b) && |a| == |b| && |Opened(a)| == |Opened(b)|
    && forall i | 0 <= i < |Opened(a)| :: Opened(a)[i].SingleOr? == Opened(b)[i].SingleOr?
  }

  /** Every condition fails, but the one at k. */
  function OnlyAt(exprs: seq<Expr>, k: nat): seq<Expr> {
    seq(|exprs|, i requires 0 <= i < |exprs| =>
      if exprs[i].SingleOr? then SingleOr((row: Row) => i == k) else Plain((row: Row) => i == k))
  }

  /** Where every alternative fails, and the conjunction before them has failed, all fails. */
  lemma {:induction false} AlternativesFail(exprs: seq<Expr>, row: Row)
    requires forall i | 0 <= i < |exprs| && exprs[i].SingleOr? :: !Sat(exprs[i], row)
    ensures !SatFrom(exprs, false, row)
  {
    if exprs != [] {
      AlternativesFail(exprs[1..], row);
    }
  }

  /** Putting the ordinary condition in front makes an alternative of it. */
  lemma FrontingChangesMeaning(exprs: seq<Expr>, row: Row)
    requires exprs != [] && exprs[0].SingleOr? && FirstOrdinary(exprs) < |exprs|
    ensures var xs := OnlyAt(exprs, FirstOrdinary(exprs)); !SatAll(xs, row) && SatAll(Fronted(xs), row)
  {
    var k := FirstOrdinary(exprs);
    var xs := OnlyAt(exprs, k);
    var fronted := Fronted(xs);
    var first := FirstOrdinary(xs);
    assert !xs[k].SingleOr? && (first < |xs| ==> !xs[first].SingleOr?);
    AlternativesFail(xs[1..], row);
    assert fronted[0] == xs[k] && fronted[1].SingleOr?;
    assert fronted[1..][0] == fronted[1];
  }

  /** So for clauses of a shape the version condition guards them all if and only if no lone alternative is misplaced. */
  lemma VersionGuardsIff(exprs: seq<Expr>, v: int)
    ensures (forall xs, row | SameShape(exprs, xs) :: Guards(xs, v, row)) <==> !Misplaced(exprs)
  {
    if Misplaced(exprs) {
      var xs, row := MisplacedIsUnguarded(exprs, v);
    } else {
      forall xs, row | SameShape(exprs, xs) ensures Guards(xs, v, row) {
        VersionGuardsWhere(xs, v, row);
      }
    }
  }

  lemma MisplacedIsUnguarded(exprs: seq<Expr>, v: int) returns (xs: seq<Expr>, row: Row)
    requires Misplaced(exprs)
    ensures SameShape(exprs, xs) && !Guards(xs, v, row)
  {
    if IsLoneAlternative(exprs) {
      xs, row := [Alternative()], Row(v + 1, map[]);
      LoneAlternativeIsUnguarded(v, row);
    } else {
      var inside := OnlyAt(Opened(exprs), FirstOrdinary(Opened(exprs)));
      xs, row := if IsOneGroup(exprs) then [Group(inside)] else inside, Row(v, map[]);
      FrontingChangesMeaning(Opened(exprs), row);
      OneGroupMeaning(xs, row);
      RewrittenMeaning(xs, v, row);
    }
  }

  /** An alternative that any row meets. */
  function Alternative(): Expr {
    SingleOr((row: Row) => true)
  }

  /** A lone alternative ends up behind the version condition: either suffices, at any version. */
  lemma LoneAlternativeIsUnguarded(v: int, row: Row)
    ensures Selects(Parenthesised([Alternative()]) + [VersionIs(v)], row)
  {
    var all := [Alternative()] + [VersionIs(v)];
    assert Fronted(all) == [VersionIs(v), Alternative()];
    assert [VersionIs(v), Alternative()][1..] == [Alternative()] && [Alternative()][1..] == [];
  }

  /** Without the parentheses the condition would guard the last alternative only. */
  lemma UnparenthesisedIsUnguarded(v: int)
    ensures var exprs := [Plain((row: Row) => true), Alternative()];
            exists row: Row :: Selects(exprs + [VersionIs(v)], row) && row.version != v
  {
    var exprs := [Plain((row: Row) => true), Alternative()];
    var all, row := exprs + [VersionIs(v)], Row(v + 1, map[]);
    assert all[1..] == [exprs[1], VersionIs(v)] && all[1..][1..] == [VersionIs(v)];
    assert Fronted(all) == all && SatAll(all, row);
  }

  /** The version a new row starts with: the caller's if it gave one, otherwise 1. */
  function CreatedVersion(given: Option<int>): int {
    match given
    case Some(v) => v
    case None => 1
  }
}
