/**
 Exactly one response, also with middlewares that answer themselves on some paths, such as a
 check that refuses a call (j2rpc2/server.go, j2rpc2/context.go).
 */
module RpcResponses {
  import opened Wrappers
  import opened HandlerChain
  import opened RpcServer
  import opened RpcGroups
  import opened RpcAnswers

  /** On every path the program writes a response; rest says whether the code after it does. */
  predicate Writes(p: Program, rest: bool) {
    match p
    case Return => rest
    case If(_, yes, no) => Writes(yes, rest) && Writes(no, rest)
    case Do(WriteResponse(_), _) => true
    case Do(StopWrite(_, _), _) => true
    case Do(_, q) => Writes(q, rest)
  }

  /**
   On every path the program calls Next or writes a response, and if it aborts it does write one.
   rest and restAborted say whether the code after it does so, and whether it writes.
   */
  predicate Responds(p: Program, rest: bool, restAborted: bool) {
    match p
    case Return => rest
    case If(_, yes, no) => Responds(yes, rest, restAborted) && Responds(no, rest, restAborted)
    case Do(Next, _) => true
    case Do(WriteResponse(_), _) => true
    case Do(StopWrite(_, _), _) => true
    case Do(Abort, q) => Writes(q, restAborted)
    case Do(_, q) => Responds(q, rest, restAborted)
  }

  predicate HandlerResponds(h: Handler) {
    Responds(h.body, Responds(h.deferred, false, false), Writes(h.deferred, false))
  }

  function Responding(): Handler -> bool {
    (h: Handler) => HandlerResponds(h)
  }

  /** Nothing is written yet, a function's handler is still to come at index k, and what comes before it responds or passes on. */
  ghost predicate Due(c: Context, k: nat) {
    && Disciplined(c) && !c.abort && !c.wrote
    && c.hid <= k < |c.handlers| && (exists f :: c.handlers[k] == CallHandler(f))
    && (forall j | c.hid <= j < k :: HandlerResponds(c.handlers[j]))
  }

  /** What is written stays written. */
  lemma StaysWritten(codec: Codec, p: Program, c: Context)
    requires Disciplined(c)
    ensures var r := Exec(codec, p, c); Disciplined(r) && (c.wrote ==> r.wrote)
  {
    ExecIsDisciplined(codec, p, c);
  }

  lemma {:induction false} WritesRuns(codec: Codec, p: Program, rest: bool, c: Context)
    requires Disciplined(c) && Writes(p, rest)
    ensures var r := Exec(codec, p, c); Disciplined(r) && (r.wrote || rest)
    decreases p
  {
    StaysWritten(codec, p, c);
    match p
    case Return =>
    case If(cond, yes, no) =>
      if cond(c.Seen()) { WritesRuns(codec, yes, rest, c); } else { WritesRuns(codec, no, rest, c); }
    case Do(Next, q) =>
      NextIsDisciplined(codec, c);
      WritesRuns(codec, q, rest, RunNext(codec, c));
    case Do(Abort, q) => WritesRuns(codec, q, rest, c.(abort := true));
    case Do(AddHandler(hs), q) =>
      AddedHandlers(c, hs);
      WritesRuns(codec, q, rest, c.(handlers := c.handlers + hs));
    case Do(SetValue(key, value), q) => WritesRuns(codec, q, rest, c.(store := c.store[key := value]));
    case Do(SetMsg(m), q) => WritesRuns(codec, q, rest, c.(msg := Some(m)));
    case Do(StopWrite(status, text), q) => StaysWritten(codec, q, Stopped(c, status, text));
    case Do(WriteResponse(args), q) => StaysWritten(codec, q, Responded(codec, c, args(c.Msg())));
  }

  /** Calling Next on such a chain leads to a response. */
  lemma {:induction false} NextResponds(codec: Codec, c: Context, k: nat)
    requires Due(c, k)
    ensures Disciplined(RunNext(codec, c)) && RunNext(codec, c).wrote
    decreases c.Pending(), 0
  {
    NextIsDisciplined(codec, c);
    var h, c1 := c.handlers[c.hid], Started(c);
    if c.hid == k {
      var f :| h == CallHandler(f);
      var respond := h.body.no;
      assert Exec(codec, h.body, c1) == Exec(codec, respond, c1);
      WritesRuns(codec, respond, false, c1);
    } else {
      RespondsRuns(codec, h.body, Responds(h.deferred, false, false), Writes(h.deferred, false), c1, k);
    }
    AfterBody(codec, h, Exec(codec, h.body, c1), k);
  }

  /** The deferred code, when the body has written, has left the function to come, or has aborted. */
  lemma {:induction false} AfterBody(codec: Codec, h: Handler, c: Context, k: nat)
    requires Disciplined(c)
    requires c.wrote || (Responds(h.deferred, false, false) && Due(c, k)) || Writes(h.deferred, false)
    ensures Exec(codec, h.deferred, c).wrote
    decreases Size(h.deferred) + c.Pending(), 2
  {
    if c.wrote {
      StaysWritten(codec, h.deferred, c);
    } else if Writes(h.deferred, false) {
      WritesRuns(codec, h.deferred, false, c);
    } else {
      RespondsRuns(codec, h.deferred, false, false, c, k);
    }
  }

  lemma {:induction false} RespondsRuns(codec: Codec, p: Program, rest: bool, restAborted: bool, c: Context, k: nat)
    requires Due(c, k) && Responds(p, rest, restAborted)
    ensures var r := Exec(codec, p, c); Disciplined(r) && (r.wrote || (rest && Due(r, k)) || restAborted)
    decreases Size(p) + c.Pending(), 1
  {
    StaysWritten(codec, p, c);
    match p
    case Return =>
    case If(cond, yes, no) =>
      if cond(c.Seen()) { RespondsRuns(codec, yes, rest, restAborted, c, k); }
      else { RespondsRuns(codec, no, rest, restAborted, c, k); }
    case Do(Next, q) =>
      NextResponds(codec, c, k);
      StaysWritten(codec, q, RunNext(codec, c));
    case Do(Abort, q) => WritesRuns(codec, q, restAborted, c.(abort := true));
    case Do(AddHandler(hs), q) =>
      AddedHandlers(c, hs);
      RespondsRuns(codec, q, rest, restAborted, c.(handlers := c.handlers + hs), k);
    case Do(SetValue(key, value), q) => RespondsRuns(codec, q, rest, restAborted, c.(store := c.store[key := value]), k);
    case Do(SetMsg(m), q) => RespondsRuns(codec, q, rest, restAborted, c.(msg := Some(m)), k);
    case Do(StopWrite(status, text), q) => StaysWritten(codec, q, Stopped(c, status, text));
    case Do(WriteResponse(args), q) => StaysWritten(codec, q, Responded(codec, c, args(c.Msg())));
  }

  /**
   Every request is answered exactly once, whatever the names of the functions and the order of
   the groups, if every middleware passes on or writes on every path, and the call, when there is
   one, names a function or no group at all.
   */
  lemma ExactlyOneResponse(codec: Codec, groups: Groups, funcs: map<string, Function>, request: Request, order: seq<string>)
    requires WellFormed(groups, funcs) && Middlewares(groups, Responding()) && (forall k | k in order :: k in groups)
    requires request.Call? ==> request.msg.methodName in funcs || request.msg.methodName !in groups
    ensures |Served(codec, groups, request, order).sent| == 1
  {
    if request.Call? && request.msg.methodName in groups {
      var name := request.msg.methodName;
      var c := AfterReadBody(Root(groups), request, Collected(groups, name, order).value);
      var n := WinnerMeaning(funcs, name, order);
      var k := WinnerInLine(groups, funcs, Responding(), request, order);
      forall j | 1 <= j < k ensures HandlerResponds(c.handlers[j]) {
        assert Responding()(c.handlers[1..k][j - 1]);
      }
      ServedAfterReadBody(codec, groups, request, order);
      NextResponds(codec, c, k);
    } else {
      BadRequestAnsweredOnce(codec, groups, request, order);
    }
  }
}
