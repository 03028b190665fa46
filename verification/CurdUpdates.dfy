/**
 The update operation of the API (mdb/curd.go, CurdParams.Update): read the row, merge the
 given values over it, send a conditional write, while other clients use the same table.
 */
module CurdUpdates {
  import opened Wrappers
  import opened Casts
  import opened VersionClauses
  import opened VersionedRows

  datatype Value = Text(text: string) | Number(x: real) | Flag(on: bool) | Other

  type Values = map<string, Value>

  /**
   How values become a model: the columns of the decoded bean, which of them its JSON form
   shows, and the version it carries, if any.
   */
  datatype Model = Model(columns: Values -> Columns, shown: Values -> set<string>, version: Values -> Option<int>)

  datatype Outcome = Sent | IdMissing | NotFound | Rejected

  /** 0 when the values name no usable id. */
  function IdOf(values: Values): nat {
    if "id" !in values then 0
    else match values["id"]
      case Text(text) => ToUint64(text)
      case Number(x) => if x < 0.0 then 0 else x.Floor
      case Flag(on) => if on then 1 else 0
      case Other => 0
  }

  predicate Forced(values: Values) {
    "force_update" in values && values["force_update"] == Flag(true)
  }

  function Restricted(columns: Columns, keys: set<string>): Columns {
    map k | k in columns && k in keys :: columns[k]
  }

  /** The caller's condition is one SQL text, empty for none. */
  function Clause(condition: Option<Row -> bool>): seq<Expr> {
    match condition
    case Some(holds) => [Plain(holds)]
    case None => []
  }

  /** A forced update writes the given columns only, zero values included; another one the whole merged row. */
  function UpdateLabel(model: Model, c: Client, values: Values, condition: Option<Row -> bool>): Label {
    if Forced(values)
    then Write(c, Restricted(model.columns(values), values.Keys - {"id", "force_update"}), false, None, false, Clause(condition))
    else Write(c, Restricted(model.columns(values), model.shown(values)), true, model.version(values), false, Clause(condition))
  }

  /** Steps of other clients. */
  predicate Foreign(c: Client, ls: seq<Label>) {
    forall i | 0 <= i < |ls| && ls[i].Read? :: ls[i].c != c
  }

  /** A client's copy stays what it read, whatever the others do. */
  lemma {:induction false} CopyStays(s: State, ls: seq<Label>, c: Client)
    requires CanRun(s, ls) && Foreign(c, ls) && c in s.copies
    ensures c in End(s, ls).copies && End(s, ls).copies[c] == s.copies[c]
    decreases |ls|
  {
    if ls != [] {
      CopyStays(Apply(s, ls[0]), ls[1..], c);
    }
  }

  /** What an update comes to: its outcome, and the table when others act between its read and its write. */
  function Updated(model: Model, condition: Option<Row -> bool>, values: Values, checkOk: bool, s: State, c: Client, others: seq<Label>): (Outcome, State)
    requires Interleaves(s, c, IdOf(values), others)
  {
    var id := IdOf(values);
    if id == 0 then (IdMissing, s)
    else if id !in s.rows then (NotFound, s)
    else
      var read := Apply(s, Read(c, id));
      if !checkOk then (Rejected, read)
      else
        CopyStays(read, others, c);
        (Sent, Apply(End(read, others), UpdateLabel(model, c, values, condition)))
  }

  /** The others' steps can follow the client's read, and leave its copy alone. */
  predicate Interleaves(s: State, c: Client, id: nat, others: seq<Label>) {
    Foreign(c, others) && (id in s.rows ==> CanRun(Apply(s, Read(c, id)), others))
  }

  lemma StillGoodAtWrite(s: State, c: Client, id: nat, others: seq<Label>)
    requires Good(s) && id in s.rows && Interleaves(s, c, id, others)
    ensures var before := End(Apply(s, Read(c, id)), others);
            Good(before) && c in before.copies && before.copies[c] == Copy(id, s.rows[id])
  {
    var read := Apply(s, Read(c, id));
    ReadIsGood(s, c, id);
    CopyStays(read, others, c);
    RunIsGood(read, others);
  }

  lemma UpdateIsSent(model: Model, condition: Option<Row -> bool>, values: Values, s: State, c: Client, others: seq<Label>)
    requires Good(s) && Interleaves(s, c, IdOf(values), others)
    requires Updated(model, condition, values, true, s, c, others).0 == Sent
    ensures
      var id, before, l := IdOf(values), End(Apply(s, Read(c, IdOf(values))), others), UpdateLabel(model, c, values, condition);
      && Good(before) && Enabled(before, l) && TargetId(before, l) == id
      && Updated(model, condition, values, true, s, c, others).1 == Apply(before, l)
  {
    StillGoodAtWrite(s, c, IdOf(values), others);
  }

  lemma NeverLone(condition: Option<Row -> bool>)
    ensures !IsLoneAlternative(Clause(condition))
  {
  }

  /**
   When an update that carries no version takes effect, the row becomes what it was at that
   moment with the changes over it: nothing the others committed since the read is lost.
   */
  lemma UpdateLosesNothing(model: Model, condition: Option<Row -> bool>, values: Values, s: State, c: Client, others: seq<Label>)
    requires Good(s) && Interleaves(s, c, IdOf(values), others)
    requires Updated(model, condition, values, true, s, c, others).0 == Sent
    ensures
      var id, before, l := IdOf(values), End(Apply(s, Read(c, IdOf(values))), others), UpdateLabel(model, c, values, condition);
      var after := Updated(model, condition, values, true, s, c, others).1;
      && Good(after) && Enabled(before, l)
      && (l.claim.None? && Effective(before, l) ==>
            && id in before.rows && id in after.rows
            && after.rows[id] == Row(before.rows[id].version + 1, before.rows[id].columns + l.changes))
  {
    UpdateIsSent(model, condition, values, s, c, others);
    NeverLone(condition);
    var before, l := End(Apply(s, Read(c, IdOf(values))), others), UpdateLabel(model, c, values, condition);
    StepIsGood(before, l);
    if l.claim.None? && Effective(before, l) {
      EffectiveIsCurrent(before, l);
    }
  }

  /** The table, shared by all clients. */
  class Table {
    var state: State

    constructor ()
      ensures state == Init() && Good(state)
    {
      state := Init();
    }

    method Perform(l: Label)
      requires Enabled(state, l)
      modifies this
      ensures state == Apply(old(state), l)
    {
      state := Apply(state, l);
    }

    /** Other clients act. */
    method Interleave(ls: seq<Label>)
      requires CanRun(state, ls)
      modifies this
      ensures state == End(old(state), ls)
    {
      state := End(state, ls);
    }
  }

  class CurdParams {
    const model: Model
    const condition: Option<Row -> bool>
    var values: Values

    constructor (model: Model, condition: Option<Row -> bool>, values: Values)
      ensures this.model == model && this.condition == condition && this.values == values
    {
      this.model, this.condition, this.values := model, condition, values;
    }

    /** others is what other clients do between this client's read and its write. */
    method Update(t: Table, c: Client, checkOk: bool, others: seq<Label>) returns (r: Outcome)
      requires Interleaves(t.state, c, IdOf(values), others)
      modifies t, this`values
      ensures (r, t.state) == Updated(model, condition, old(values), checkOk, old(t.state), c, others)
    {
      var id := IdOf(values);
      if id == 0 {
        return IdMissing;
      }
      if id !in t.state.rows {
        return NotFound;
      }
      t.Perform(Read(c, id));
      if !checkOk {
        return Rejected;
      }
      CopyStays(t.state, others, c);
      t.Interleave(others);
      var bean := model.columns(values);
      if Forced(values) {
        var given := values.Keys;
        values := values - {"id", "force_update"};
        assert values.Keys == given - {"id", "force_update"};
        t.Perform(Write(c, Restricted(bean, values.Keys), false, None, false, Clause(condition)));
      } else {
        t.Perform(Write(c, Restricted(bean, model.shown(values)), true, model.version(values), false, Clause(condition)));
      }
      return Sent;
    }
  }
}
