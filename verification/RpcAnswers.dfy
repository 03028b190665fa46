/**
 One answer per call, for every order in which the server visits its groups
 (j2rpc2/server.go, j2rpc2/context.go).
 */
module RpcAnswers {
  import opened Wrappers
  import opened HandlerChain
  import opened RpcServer
  import opened RpcGroups

  // ---------- Middlewares that pass on ----------

  /**
   On every path the program calls Next before it aborts, writes or replaces the message;
   afterwards, and with the handlers it adds, it may do anything. rest says whether the code after it passes on.
   */
  predicate Passes(p: Program, rest: bool) {
    match p
    case Return => rest
    case If(_, yes, no) => Passes(yes, rest) && Passes(no, rest)
    case Do(Next, _) => true
    case Do(AddHandler(_), q) => Passes(q, rest)
    case Do(SetValue(_, _), q) => Passes(q, rest)
    case Do(_, _) => false
  }

  predicate HandlerPasses(h: Handler) {
    Passes(h.body, Passes(h.deferred, false))
  }

  /** The handler of f is still to come, at index k, and everything before it passes on. */
  ghost predicate Ready(c: Context, k: nat, f: Function, m: Message) {
    && Disciplined(c) && !c.abort && !c.wrote && c.msg == Some(m)
    && c.hid <= k < |c.handlers| && c.handlers[k] == CallHandler(f)
    && (forall j | c.hid <= j < k :: HandlerPasses(c.handlers[j]))
  }

  function AnswerOf(codec: Codec, f: Function, m: Message): Sent {
    Delivered(codec, Answer(m, ResponseArgs(f.call(m))))
  }

  ghost predicate Answered(codec: Codec, c: Context, f: Function, m: Message) {
    Disciplined(c) && c.wrote && c.sent == [AnswerOf(codec, f, m)]
  }

  lemma StaysAnswered(codec: Codec, p: Program, c: Context, f: Function, m: Message)
    requires Answered(codec, c, f, m)
    ensures Answered(codec, Exec(codec, p, c), f, m)
  {
    ExecIsDisciplined(codec, p, c);
  }

  /** Calling Next leads through the passing handlers to the function, whose answer is written. */
  lemma {:induction false} NextAnswers(codec: Codec, c: Context, k: nat, f: Function, m: Message)
    requires Ready(c, k, f, m)
    ensures Answered(codec, RunNext(codec, c), f, m)
    decreases c.Pending(), 0
  {
    var h, c1 := c.handlers[c.hid], Started(c);
    if c.hid == k {
      CallAnswers(codec, c1, f, m);
    } else {
      PassesOn(codec, h.body, Passes(h.deferred, false), c1, k, f, m);
      var c2 := Exec(codec, h.body, c1);
      if Answered(codec, c2, f, m) {
        StaysAnswered(codec, h.deferred, c2, f, m);
      } else {
        PassesOn(codec, h.deferred, false, c2, k, f, m);
      }
    }
  }

  lemma CallAnswers(codec: Codec, c: Context, f: Function, m: Message)
    requires Disciplined(c) && !c.wrote && c.msg == Some(m)
    ensures Answered(codec, Exec(codec, CallHandler(f).deferred, Exec(codec, CallHandler(f).body, c)), f, m)
  {
    var respond := CallHandler(f).body.no;
    assert Exec(codec, CallHandler(f).body, c) == Exec(codec, respond, c);
    var c1 := Responded(codec, c, ResponseArgs(f.call(m)));
    assert Exec(codec, respond, c) == Exec(codec, Return, c1) == c1;
    StaysAnswered(codec, CallHandler(f).deferred, c1, f, m);
  }

  lemma {:induction false} PassesOn(codec: Codec, p: Program, rest: bool, c: Context, k: nat, f: Function, m: Message)
    requires Ready(c, k, f, m) && Passes(p, rest)
    ensures Answered(codec, Exec(codec, p, c), f, m) || (rest && Ready(Exec(codec, p, c), k, f, m))
    decreases Size(p) + c.Pending(), 1
  {
    match p
    case Return =>
    case If(cond, yes, no) =>
      if cond(c.Seen()) { PassesOn(codec, yes, rest, c, k, f, m); } else { PassesOn(codec, no, rest, c, k, f, m); }
    case Do(Next, q) =>
      NextAnswers(codec, c, k, f, m);
      StaysAnswered(codec, q, RunNext(codec, c), f, m);
    case Do(AddHandler(hs), q) =>
      AddedHandlers(c, hs);
      PassesOn(codec, q, rest, c.(handlers := c.handlers + hs), k, f, m);
    case Do(SetValue(key, value), q) => PassesOn(codec, q, rest, c.(store := c.store[key := value]), k, f, m);
  }

  // ---------- Whole requests ----------

  function Passing(): Handler -> bool {
    (h: Handler) => HandlerPasses(h)
  }

  /**
   With middlewares that pass on, a call gets exactly one response: that of the first function,
   in the order in which the groups are visited, whose name is a dotted prefix of the method's
   name, or else that of the method itself.
   */
  lemma WinnerAnswers(codec: Codec, groups: Groups, funcs: map<string, Function>, request: Request, order: seq<string>)
    requires WellFormed(groups, funcs) && Middlewares(groups, Passing()) && (forall k | k in order :: k in groups)
    requires request.Call? && request.msg.methodName in groups && Winner(funcs, request.msg.methodName, order) in funcs
    ensures Served(codec, groups, request, order).sent
         == [AnswerOf(codec, funcs[Winner(funcs, request.msg.methodName, order)], request.msg)]
  {
    var name := request.msg.methodName;
    var c := AfterReadBody(Root(groups), request, Collected(groups, name, order).value);
    var k := WinnerInLine(groups, funcs, Passing(), request, order);
    forall j | 1 <= j < k ensures HandlerPasses(c.handlers[j]) {
      assert Passing()(c.handlers[1..k][j - 1]);
    }
    ServedAfterReadBody(codec, groups, request, order);
    NextAnswers(codec, c, k, funcs[Winner(funcs, name, order)], request.msg);
  }

  /**
   A registered function answers its calls itself, whatever the order of the groups, if no
   function's name is a dotted prefix of its own.
   */
  lemma OneAnswerPerCall(codec: Codec, groups: Groups, funcs: map<string, Function>, request: Request, order: seq<string>)
    requires WellFormed(groups, funcs) && Middlewares(groups, Passing()) && Lists(order, groups)
    requires request.Call? && request.msg.methodName in funcs
    requires forall f | f in funcs :: !Applies(f, request.msg.methodName)
    ensures Served(codec, groups, request, order).sent == [AnswerOf(codec, funcs[request.msg.methodName], request.msg)]
  {
    NameWinsIff(groups, funcs, request.msg.methodName, order);
    WinnerAnswers(codec, groups, funcs, request, order);
  }

  /** Otherwise each function named by a dotted prefix answers in its place for some order of the groups. */
  lemma PrefixFunctionAnswers(codec: Codec, groups: Groups, funcs: map<string, Function>, request: Request, f: string)
    returns (order: seq<string>)
    requires WellFormed(groups, funcs) && Middlewares(groups, Passing())
    requires request.Call? && request.msg.methodName in groups
    requires f in funcs && Applies(f, request.msg.methodName)
    ensures Lists(order, groups)
    ensures Served(codec, groups, request, order).sent == [AnswerOf(codec, funcs[f], request.msg)]
  {
    order := AnyPrefixFunctionMayWin(groups, funcs, request.msg.methodName, f);
    WinnerAnswers(codec, groups, funcs, request, order);
  }

  /** The answer to a call names the request's id and version, and carries exactly one of result and error. */
  lemma AnswerIsWellFormed(f: Function, m: Message)
    requires f.Encodes() && m.result != Some("")
    ensures WellFormedAnswer(Outgoing(Answer(m, ResponseArgs(f.call(m)))), m)
  {
    ArgsMeaning(m, ResponseArgs(f.call(m)));
  }

  predicate WellFormedAnswer(answer: Message, m: Message) {
    answer.id == m.id && answer.version == m.version && CarriesResult(answer) != answer.error.Some?
  }

  /** The JSON encoder and the hook before writing accept this message. */
  predicate Writable(codec: Codec, out: Message) {
    codec.encode(out).Ok? && codec.beforeWrite(codec.encode(out).value).Ok?
  }

  /**
   So a call is answered by exactly one response: a well-formed one, if and only if encoding and
   hook accept it, and otherwise the text of their error.
   */
  lemma OneWellFormedAnswer(codec: Codec, groups: Groups, funcs: map<string, Function>, request: Request, order: seq<string>)
    requires WellFormed(groups, funcs) && Middlewares(groups, Passing()) && (forall k | k in order :: k in groups)
    requires request.Call? && request.msg.methodName in groups && Winner(funcs, request.msg.methodName, order) in funcs
    requires funcs[Winner(funcs, request.msg.methodName, order)].Encodes() && request.msg.result != Some("")
    ensures
      var sent := Served(codec, groups, request, order).sent;
      var f := funcs[Winner(funcs, request.msg.methodName, order)];
      && |sent| == 1
      && (sent[0].Reply? <==> Writable(codec, Outgoing(Answer(request.msg, ResponseArgs(f.call(request.msg))))))
      && (sent[0].Reply? ==> WellFormedAnswer(sent[0].msg, request.msg))
      && (sent[0].Text? ==> sent[0].status == STATUS_INTERNAL)
  {
    WinnerAnswers(codec, groups, funcs, request, order);
    AnswerIsWellFormed(funcs[Winner(funcs, request.msg.methodName, order)], request.msg);
  }

  /** A request that cannot be read, or names no group, is answered once too; after a refused body nothing more is started. */
  lemma BadRequestAnsweredOnce(codec: Codec, groups: Groups, request: Request, order: seq<string>)
    requires "" in groups && groups[""] != [] && forall k | k in order :: k in groups
    requires request.Call? ==> request.msg.methodName !in groups
    ensures var c := Served(codec, groups, request, order);
            && (request.Call? ==> c.sent == [Delivered(codec, Answer(request.msg, [RpcErrorArg(RpcError(ERR_NO_METHOD, "wrong method", None))]))])
            && (request.Refused? ==> c.sent == [Text(request.status, request.text)] && c.started == [0])
            && (request.Malformed? ==> c.sent == [Text(STATUS_BAD_REQUEST, request.text)] && c.started == [0])
  {
    var h := ReadBodyHandler(request, None);
    var c := Context([h] + Root(groups), 0, false, false, None, map[], [], []);
    var c1 := Started(c);
    if request.Call? {
      ReadBodyRuns(codec, request, None, c1);
      var c2 := c1.(store := c1.store[BODY_KEY := request.body][TIME_BEGIN_KEY := request.time], msg := Some(request.msg));
      var c3 := Responded(codec, c2, [RpcErrorArg(RpcError(ERR_NO_METHOD, "wrong method", None))]);
      assert Exec(codec, Dispatch(None), c2) == Exec(codec, Return, c3) == c3;
      ExecIsDisciplined(codec, h.deferred, c3);
    } else {
      RefusedStops(codec, request, c1);
      ExecIsDisciplined(codec, h.deferred, Exec(codec, h.body, c1));
    }
  }

  lemma RefusedStops(codec: Codec, request: Request, c: Context)
    requires !request.Call? && Disciplined(c) && !c.wrote
    ensures var r := Exec(codec, ReadBodyHandler(request, None).body, c);
            && Disciplined(r) && r.wrote && r.abort && r.started == c.started
            && r.sent == [Text(if request.Refused? then request.status else STATUS_BAD_REQUEST, request.text)]
  {
    var p := ReadBodyHandler(request, None).body;
    if request.Refused? {
      var r := Stopped(c, request.status, request.text);
      assert Exec(codec, p, c) == Exec(codec, Return, r) == r;
    } else {
      var c1 := c.(store := c.store[BODY_KEY := request.body]);
      var r := Stopped(c1, STATUS_BAD_REQUEST, request.text);
      assert Exec(codec, p, c) == Exec(codec, p.then_, c1) == Exec(codec, Return, r) == r;
    }
  }

  // ---------- A group without a function ----------

  /** A program that never writes, nor adds handlers that do. */
  predicate Quiet(p: Program) {
    match p
    case Return => true
    case If(_, yes, no) => Quiet(yes) && Quiet(no)
    case Do(WriteResponse(_), _) => false
    case Do(StopWrite(_, _), _) => false
    case Do(AddHandler(hs), q) => AllQuiet(hs) && Quiet(q)
    case Do(_, q) => Quiet(q)
  }

  predicate AllQuiet(hs: seq<Handler>) {
    forall i | 0 <= i < |hs| :: QuietHandler(hs[i])
  }

  predicate QuietHandler(h: Handler) {
    Quiet(h.body) && Quiet(h.deferred)
  }

  lemma {:induction false} QuietRuns(codec: Codec, p: Program, c: Context)
    requires c.InRange() && Quiet(p) && AllQuiet(c.handlers[c.hid..])
    ensures var r := Exec(codec, p, c); r.sent == c.sent && AllQuiet(r.handlers[r.hid..])
    decreases Size(p) + c.Pending(), 1
  {
    match p
    case Return =>
    case If(cond, yes, no) => if cond(c.Seen()) { QuietRuns(codec, yes, c); } else { QuietRuns(codec, no, c); }
    case Do(Next, q) =>
      QuietNext(codec, c);
      QuietRuns(codec, q, RunNext(codec, c));
    case Do(Abort, q) => QuietRuns(codec, q, c.(abort := true));
    case Do(AddHandler(hs), q) =>
      AddedHandlers(c, hs);
      assert (c.handlers + hs)[c.hid..] == c.handlers[c.hid..] + hs;
      QuietRuns(codec, q, c.(handlers := c.handlers + hs));
    case Do(SetValue(key, value), q) => QuietRuns(codec, q, c.(store := c.store[key := value]));
    case Do(SetMsg(m), q) => QuietRuns(codec, q, c.(msg := Some(m)));
  }

  lemma {:induction false} QuietNext(codec: Codec, c: Context)
    requires c.InRange() && AllQuiet(c.handlers[c.hid..])
    ensures var r := RunNext(codec, c); r.sent == c.sent && AllQuiet(r.handlers[r.hid..])
    decreases c.Pending(), 0
  {
    if !c.abort && c.hid < |c.handlers| {
      var h, c1 := c.handlers[c.hid], Started(c);
      assert h == c.handlers[c.hid..][0] && QuietHandler(h);
      assert c1.handlers[c1.hid..] == c.handlers[c.hid..][1..];
      QuietRuns(codec, h.body, c1);
      QuietRuns(codec, h.deferred, Exec(codec, h.body, c1));
    }
  }

  function Leaving(): Handler -> bool {
    (h: Handler) => QuietHandler(h)
  }

  lemma AllQuietIff(hs: seq<Handler>)
    ensures All(hs, Leaving()) <==> AllQuiet(hs)
  {
    assert forall h: Handler :: Leaving()(h) == QuietHandler(h);
  }

  /** Without a function that applies, nothing writes. */
  lemma NoFunctionNoAnswer(codec: Codec, groups: Groups, funcs: map<string, Function>, request: Request, order: seq<string>)
    requires WellFormed(groups, funcs) && Middlewares(groups, Leaving()) && (forall k | k in order :: k in groups)
    requires request.Call? && request.msg.methodName != ""
    requires request.msg.methodName in groups && request.msg.methodName !in funcs
    requires forall f | f in funcs :: !Applies(f, request.msg.methodName)
    ensures Served(codec, groups, request, order).sent == []
  {
    var name := request.msg.methodName;
    var root, prefixed, own := Root(groups), Prefixed(groups, name, order), HandlersOf(groups[name]);
    RootAll(groups, funcs, Leaving());
    PrefixedAll(groups, funcs, Leaving(), name, order);
    GroupAll(groups, funcs, Leaving(), name);
    AllQuietIff(root);
    AllQuietIff(prefixed);
    AllQuietIff(own);
    var c := AfterReadBody(root, request, prefixed + own);
    assert c.handlers[c.hid..] == root + (prefixed + own);
    ServedAfterReadBody(codec, groups, request, order);
    QuietNext(codec, c);
  }

  /**
   With middlewares that pass on and leave the response to others, a call is answered if and only if
   its method or a dotted prefix of it is a function, or it is not even a group: a group of
   middlewares alone swallows it.
   */
  lemma AnsweredIffFunctionOrUnknown(codec: Codec, groups: Groups, funcs: map<string, Function>, request: Request, order: seq<string>)
    requires WellFormed(groups, funcs) && Middlewares(groups, Passing()) && Middlewares(groups, Leaving()) && Lists(order, groups)
    requires request.Call? && request.msg.methodName != ""
    ensures var name := request.msg.methodName;
            |Served(codec, groups, request, order).sent| ==
              if name !in groups || name in funcs || exists f :: f in funcs && Applies(f, name) then 1 else 0
  {
    var name := request.msg.methodName;
    if name !in groups {
      BadRequestAnsweredOnce(codec, groups, request, order);
    } else if name in funcs || exists f :: f in funcs && Applies(f, name) {
      var n := WinnerMeaning(funcs, name, order);
      NameWinsIff(groups, funcs, name, order);
      WinnerAnswers(codec, groups, funcs, request, order);
    } else {
      NoFunctionNoAnswer(codec, groups, funcs, request, order);
    }
  }
}
