/**
 Optimistic versioning between many clients (mdb/version.go, mdb/curd.go CurdParams.Update).

 Clients read copies of rows and keep them for as long as they like; an update is computed from
 a copy and sent under the version condition of VersionClauses. Ids are not reused.
 */
module VersionedRows {
  import opened Wrappers
  import opened VersionClauses

  type Columns = map<string, string>

  type Client = nat

  datatype Copy = Copy(id: nat, row: Row)

  /** One version of one row. */
  datatype Stamp = Stamp(id: nat, version: int)

  /**
   rows is the table and copies what each client last read. The rest is history: which values
   were ever committed under which stamp, the version each row began with, and how many updates
   of it took effect.
   */
  datatype State = State(
    rows: map<nat, Row>,
    copies: map<Client, Copy>,
    committed: map<Stamp, Columns>,
    first: map<nat, int>,
    updates: map<nat, nat>)

  function Init(): State {
    State(map[], map[], map[], map[], map[])
  }

  /**
   Write is an update computed from the client's copy: either the whole merged row, or only the
   changed columns. claim is a version the client supplied itself, used instead of the copy's.
   BlindWrite carries no version at all.
   */
  datatype Label =
    | Create(id: nat, given: Option<int>, columns: Columns)
    | Read(c: Client, id: nat)
    | Write(c: Client, changes: Columns, whole: bool, claim: Option<int>, unscoped: bool, where: seq<Expr>)
    | BlindWrite(id: nat, changes: Columns, where: seq<Expr>)
    | Remove(id: nat)

  predicate Enabled(s: State, l: Label) {
    match l
    case Create(id, _, _) => id !in s.first
    case Read(_, id) => id in s.rows
    case Write(c, _, _, _, _, _) => c in s.copies
    case BlindWrite(_, _, _) => true
    case Remove(_) => true
  }

  function TargetId(s: State, l: Label): nat
    requires (l.Write? || l.BlindWrite?) && Enabled(s, l)
  {
    if l.Write? then s.copies[l.c].id else l.id
  }

  /** The version the update is conditional on, None when it is unconditional. */
  function Condition(s: State, l: Label): Option<int>
    requires (l.Write? || l.BlindWrite?) && Enabled(s, l)
  {
    if l.BlindWrite? || l.unscoped then None
    else if l.claim.Some? then l.claim
    else Some(s.copies[l.c].row.version)
  }

  /** An update takes effect when the row is there and meets the rewritten WHERE clause. */
  predicate Effective(s: State, l: Label)
    requires (l.Write? || l.BlindWrite?) && Enabled(s, l)
  {
    var id := TargetId(s, l);
    id in s.rows && Selects(Parenthesised(l.where) + VersionCondition(false, Condition(s, l)), s.rows[id])
  }

  /** An update without a version takes effect on what its own clause selects, parentheses or not. */
  lemma UnconditionalIff(s: State, l: Label)
    requires (l.Write? || l.BlindWrite?) && Enabled(s, l) && Condition(s, l).None?
    ensures Effective(s, l) <==> TargetId(s, l) in s.rows && Selects(l.where, s.rows[TargetId(s, l)])
  {
    if TargetId(s, l) in s.rows {
      ParenthesesKeepWhere(l.where, s.rows[TargetId(s, l)]);
      assert Parenthesised(l.where) + [] == Parenthesised(l.where);
    }
  }

  function NewColumns(s: State, l: Label): Columns
    requires (l.Write? || l.BlindWrite?) && Enabled(s, l) && Effective(s, l)
  {
    var row := s.rows[TargetId(s, l)];
    if l.Write? && l.whole then row.columns + (s.copies[l.c].row.columns + l.changes)
    else row.columns + l.changes
  }

  /** The row gets its new columns and the next version. */
  function Committed(s: State, id: nat, columns: Columns): State
    requires id in s.rows
  {
    var v := s.rows[id].version + 1;
    s.(rows := s.rows[id := Row(v, columns)], committed := s.committed[Stamp(id, v) := columns],
       updates := s.updates[id := (if id in s.updates then s.updates[id] else 0) + 1])
  }

  function Apply(s: State, l: Label): State
    requires Enabled(s, l)
  {
    match l
    case Create(id, given, columns) =>
      var v := CreatedVersion(given);
      s.(rows := s.rows[id := Row(v, columns)], committed := s.committed[Stamp(id, v) := columns],
         first := s.first[id := v], updates := s.updates[id := 0])
    case Read(c, id) => s.(copies := s.copies[c := Copy(id, s.rows[id])])
    case Remove(id) => s.(rows := s.rows - {id})
    case _ =>
      // A write that does not take effect is not reported to its client either.
      if !Effective(s, l) then s else Committed(s, TargetId(s, l), NewColumns(s, l))
  }

  predicate CanRun(s: State, ls: seq<Label>)
    decreases |ls|
  {
    ls == [] || (Enabled(s, ls[0]) && CanRun(Apply(s, ls[0]), ls[1..]))
  }

  function End(s: State, ls: seq<Label>): State
    requires CanRun(s, ls)
    decreases |ls|
  {
    if ls == [] then s else End(Apply(s, ls[0]), ls[1..])
  }

  // ---------- The invariant ----------

  /** A copy holds a value that was committed under its stamp. */
  ghost predicate CopiesOk(copies: map<Client, Copy>, committed: map<Stamp, Columns>) {
    forall c | c in copies ::
      && Stamp(copies[c].id, copies[c].row.version) in committed
      && committed[Stamp(copies[c].id, copies[c].row.version)] == copies[c].row.columns
  }

  ghost predicate RowsOk(s: State) {
    && s.first.Keys == s.updates.Keys && s.rows.Keys <= s.first.Keys
    && (forall id | id in s.rows ::
          && s.rows[id].version == s.first[id] + s.updates[id]
          && Stamp(id, s.rows[id].version) in s.committed
          && s.committed[Stamp(id, s.rows[id].version)] == s.rows[id].columns)
  }

  /** No stamp lies beyond the version its row has reached. */
  ghost predicate StampsOk(committed: map<Stamp, Columns>, first: map<nat, int>, updates: map<nat, nat>) {
    forall k | k in committed :: k.id in first && k.id in updates && k.version <= first[k.id] + updates[k.id]
  }

  ghost predicate Good(s: State) {
    RowsOk(s) && StampsOk(s.committed, s.first, s.updates) && CopiesOk(s.copies, s.committed)
  }

  /** Nothing that was committed is ever committed differently. */
  ghost predicate Extends(a: map<Stamp, Columns>, b: map<Stamp, Columns>) {
    forall k | k in a :: k in b && b[k] == a[k]
  }

  lemma CopiesStayOk(copies: map<Client, Copy>, a: map<Stamp, Columns>, b: map<Stamp, Columns>)
    requires CopiesOk(copies, a) && Extends(a, b)
    ensures CopiesOk(copies, b)
  {
  }

  lemma CommitKeepsRows(s: State, id: nat, columns: Columns)
    requires RowsOk(s) && StampsOk(s.committed, s.first, s.updates) && id in s.rows
    ensures RowsOk(Committed(s, id, columns)) && Extends(s.committed, Committed(s, id, columns).committed)
  {
    assert Stamp(id, s.rows[id].version + 1) !in s.committed;
  }

  lemma CommitKeepsStamps(s: State, id: nat, columns: Columns)
    requires RowsOk(s) && StampsOk(s.committed, s.first, s.updates) && id in s.rows
    ensures var s' := Committed(s, id, columns); StampsOk(s'.committed, s'.first, s'.updates)
  {
  }

  lemma CommitIsGood(s: State, id: nat, columns: Columns)
    requires Good(s) && id in s.rows
    ensures Good(Committed(s, id, columns)) && Extends(s.committed, Committed(s, id, columns).committed)
  {
    CommitKeepsRows(s, id, columns);
    CommitKeepsStamps(s, id, columns);
    CopiesStayOk(s.copies, s.committed, Committed(s, id, columns).committed);
  }

  lemma CreateIsGood(s: State, id: nat, given: Option<int>, columns: Columns)
    requires Good(s) && id !in s.first
    ensures var s' := Apply(s, Create(id, given, columns)); Good(s') && Extends(s.committed, s'.committed)
  {
    assert Stamp(id, CreatedVersion(given)) !in s.committed;
    CopiesStayOk(s.copies, s.committed, Apply(s, Create(id, given, columns)).committed);
  }

  lemma ReadIsGood(s: State, c: Client, id: nat)
    requires Good(s) && id in s.rows
    ensures Good(Apply(s, Read(c, id)))
  {
  }

  /** A step never gives a stamp a second value: each version number identifies one committed value. */
  lemma StepIsGood(s: State, l: Label)
    requires Good(s) && Enabled(s, l)
    ensures Good(Apply(s, l)) && Extends(s.committed, Apply(s, l).committed)
  {
    match l
    case Create(id, given, columns) => CreateIsGood(s, id, given, columns);
    case Read(c, id) => ReadIsGood(s, c, id);
    case Remove(_) =>
    case _ =>
      if Effective(s, l) {
        CommitIsGood(s, TargetId(s, l), NewColumns(s, l));
        assert Apply(s, l) == Committed(s, TargetId(s, l), NewColumns(s, l));
      } else {
        assert Apply(s, l) == s;
      }
  }

  /** Versions rise by exactly one per update that takes effect, conditional or not, and by nothing else. */
  lemma StepBumpsVersion(s: State, l: Label, id: nat)
    requires Enabled(s, l) && id in s.rows && id in Apply(s, l).rows && Good(s)
    ensures Apply(s, l).rows[id].version == s.rows[id].version +
              if (l.Write? || l.BlindWrite?) && Effective(s, l) && TargetId(s, l) == id then 1 else 0
    ensures Apply(s, l).rows[id].version == s.rows[id].version ==> Apply(s, l).rows[id] == s.rows[id]
  {
  }

  lemma {:induction false} RunIsGood(s: State, ls: seq<Label>)
    requires Good(s) && CanRun(s, ls)
    ensures Good(End(s, ls))
    ensures Extends(s.committed, End(s, ls).committed)
    decreases |ls|
  {
    if ls != [] {
      StepIsGood(s, ls[0]);
      RunIsGood(Apply(s, ls[0]), ls[1..]);
    }
  }

  // ---------- No lost updates ----------

  /**
   An update conditional on a version takes effect only on the row at that version, unless its
   clause is a lone alternative.
   */
  lemma EffectiveMeansVersion(s: State, l: Label)
    requires l.Write? && Enabled(s, l) && Effective(s, l) && Condition(s, l).Some? && !IsLoneAlternative(l.where)
    ensures s.rows[TargetId(s, l)].version == Condition(s, l).value
  {
    RewrittenMeaning(l.where, Condition(s, l).value, s.rows[TargetId(s, l)]);
  }

  /** Under the version of the client's copy, what takes effect was computed from the value it replaces. */
  lemma EffectiveIsCurrent(s: State, l: Label)
    requires Good(s) && Enabled(s, l)
    requires l.Write? && !l.unscoped && l.claim.None? && Effective(s, l) && !IsLoneAlternative(l.where)
    ensures s.copies[l.c].row == s.rows[TargetId(s, l)]
    ensures Apply(s, l).rows[TargetId(s, l)] ==
              Row(s.rows[TargetId(s, l)].version + 1, s.rows[TargetId(s, l)].columns + l.changes)
  {
    EffectiveMeansVersion(s, l);
    var row := s.rows[TargetId(s, l)];
    assert s.copies[l.c].row.columns == row.columns;
    assert row.columns + (row.columns + l.changes) == row.columns + l.changes;
  }

  /** What the update takes effect on is the value it was computed from, and what it commits is that value with its changes. */
  predicate IsCurrent(s: State, l: Label)
    requires l.Write? && Enabled(s, l) && Effective(s, l)
  {
    && s.copies[l.c].row == s.rows[TargetId(s, l)]
    && Apply(s, l).rows[TargetId(s, l)] ==
         Row(s.rows[TargetId(s, l)].version + 1, s.rows[TargetId(s, l)].columns + l.changes)
  }

  /** After the steps ls the client's update takes effect, under the version of its copy. */
  predicate TakesEffect(ls: seq<Label>, l: Label) {
    && CanRun(Init(), ls) && Enabled(End(Init(), ls), l)
    && l.Write? && !l.unscoped && l.claim.None? && Effective(End(Init(), ls), l)
  }

  /**
   No lost updates: in every reachable state, an update that takes effect under the version of
   the client's copy, however old, was computed from exactly the value it replaces, so what it
   commits is that value with the client's changes.
   */
  lemma NoLostUpdate(ls: seq<Label>, l: Label)
    requires TakesEffect(ls, l) && !IsLoneAlternative(l.where)
    ensures IsCurrent(End(Init(), ls), l)
  {
    RunIsGood(Init(), ls);
    EffectiveIsCurrent(End(Init(), ls), l);
  }

  /** For the clauses of a shape this holds if and only if the shape is not a lone alternative. */
  lemma NoLostUpdateIff(where: seq<Expr>)
    ensures (forall ls, l | TakesEffect(ls, l) && SameShape(where, l.where) :: IsCurrent(End(Init(), ls), l))
              <==> !IsLoneAlternative(where)
  {
    if IsLoneAlternative(where) {
      LoneAlternativeLosesUpdate();
      var l := StaleWrite(None, [Alternative()]);
      assert TakesEffect(StaleCopyRun(), l) && SameShape(where, l.where);
    } else {
      forall ls, l | TakesEffect(ls, l) && SameShape(where, l.where)
        ensures IsCurrent(End(Init(), ls), l)
      {
        NoLostUpdate(ls, l);
      }
    }
  }

  /**
   A version supplied by the caller replaces the one just read. Such an update, when it takes
   effect, was computed from the current value exactly when the supplied version is not beyond
   the one its copy was read at.
   */
  lemma ClaimedVersionIsCurrentIff(ls: seq<Label>, l: Label)
    requires CanRun(Init(), ls) && Enabled(End(Init(), ls), l)
    requires l.Write? && !l.unscoped && l.claim.Some? && Effective(End(Init(), ls), l) && !IsLoneAlternative(l.where)
    ensures var s := End(Init(), ls);
            s.copies[l.c].row == s.rows[TargetId(s, l)] <==> l.claim.value <= s.copies[l.c].row.version
  {
    RunIsGood(Init(), ls);
    var s := End(Init(), ls);
    EffectiveMeansVersion(s, l);
  }

  lemma ThreeSteps(s: State, a: Label, b: Label, c: Label)
    requires Enabled(s, a) && Enabled(Apply(s, a), b) && Enabled(Apply(Apply(s, a), b), c)
    ensures CanRun(s, [a, b, c]) && End(s, [a, b, c]) == Apply(Apply(Apply(s, a), b), c)
  {
    Prepend(Apply(Apply(s, a), b), c, []);
    Prepend(Apply(s, a), b, [c]);
    Prepend(s, a, [b, c]);
    assert [c] == [c] + [] && [b, c] == [b] + [c] && [a, b, c] == [a] + [b, c];
  }

  lemma Prepend(s: State, l: Label, rest: seq<Label>)
    requires Enabled(s, l) && CanRun(Apply(s, l), rest)
    ensures CanRun(s, [l] + rest) && End(s, [l] + rest) == End(Apply(s, l), rest)
  {
    assert ([l] + rest)[1..] == rest;
  }

  /** Client 7 reads row 1, and another client then commits "x" for b. */
  function StaleCopyRun(): seq<Label> {
    [Create(1, None, map["a" := "", "b" := ""]), Read(7, 1), BlindWrite(1, map["b" := "x"], [])]
  }

  /** The row as the other client left it, and client 7's copy of it. */
  predicate IsStale(s: State) {
    && s.rows == map[1 := Row(2, map["a" := "", "b" := "x"])]
    && s.copies == map[7 := Copy(1, Row(1, map["a" := "", "b" := ""]))]
  }

  lemma StaleCopy()
    ensures CanRun(Init(), StaleCopyRun()) && IsStale(End(Init(), StaleCopyRun()))
  {
    var create, read, blind := Create(1, None, map["a" := "", "b" := ""]), Read(7, 1), BlindWrite(1, map["b" := "x"], []);
    var s2 := Apply(Apply(Init(), create), read);
    assert s2.rows[1] == Row(1, map["a" := "", "b" := ""]) && s2.copies[7] == Copy(1, s2.rows[1]);
    assert Effective(s2, blind);
    ThreeSteps(Init(), create, read, blind);
    assert map["a" := "", "b" := ""] + map["b" := "x"] == map["a" := "", "b" := "x"];
  }

  /** An update of the whole row from that copy. */
  function StaleWrite(claim: Option<int>, where: seq<Expr>): Label {
    Write(7, map["a" := "y"], true, claim, false, where)
  }

  /** When it takes effect, the value of b that the other client committed is gone. */
  lemma StaleWriteOverwrites(s: State, l: Label)
    requires IsStale(s) && l.Write? && l == StaleWrite(l.claim, l.where) && Effective(s, l)
    ensures Apply(s, l).rows == map[1 := Row(3, map["a" := "y", "b" := ""])]
  {
    var read := map["a" := "", "b" := ""];
    assert s.rows[1].columns + (read + l.changes) == map["a" := "y", "b" := ""];
  }

  /** An instance beyond that bound. */
  lemma FutureClaimOverwrites()
    ensures CanRun(Init(), StaleCopyRun()) && IsStale(End(Init(), StaleCopyRun()))
    ensures var s, l := End(Init(), StaleCopyRun()), StaleWrite(Some(2), []);
            && Enabled(s, l) && Effective(s, l)
            && Apply(s, l).rows == map[1 := Row(3, map["a" := "y", "b" := ""])]
  {
    StaleCopy();
    var s, l := End(Init(), StaleCopyRun()), StaleWrite(Some(2), []);
    RewrittenMeaning([], 2, s.rows[1]);
    StaleWriteOverwrites(s, l);
  }

  /** The same loss, from a stale copy whose update has a lone alternative for its clause. */
  lemma LoneAlternativeLosesUpdate()
    ensures CanRun(Init(), StaleCopyRun()) && IsStale(End(Init(), StaleCopyRun()))
    ensures var s, l := End(Init(), StaleCopyRun()), StaleWrite(None, [Alternative()]);
            && TakesEffect(StaleCopyRun(), l)
            && Apply(s, l).rows == map[1 := Row(3, map["a" := "y", "b" := ""])]
            && !IsCurrent(s, l)
  {
    StaleCopy();
    var s, l := End(Init(), StaleCopyRun()), StaleWrite(None, [Alternative()]);
    LoneAlternativeIsUnguarded(1, s.rows[1]);
    assert Effective(s, l);
    StaleWriteOverwrites(s, l);
  }
}
