/**
 One JSON-RPC call through the server (j2rpc2/server.go): reading the body, collecting the
 handlers of the matching groups, calling the registered function.
 */
module RpcServer {
  import opened Wrappers
  import opened HandlerChain

  const SEPARATOR := "."
  const BODY_KEY := "___j2rpc.body"
  const TIME_BEGIN_KEY := "___j2rpc.timeBegin"

  /** What calling a registered function comes to. Encoded data is never empty. */
  datatype Outcome =
    | BadParams(text: string)
    | FailedWithCode(error: RpcError)
    | Failed(text: string)
    | NoResult
    | Data(data: string)
    | Unencodable(text: string)

  datatype Function = Function(name: string, call: Message -> Outcome)
  {
    ghost predicate Encodes() {
      forall m :: call(m).Data? ==> call(m).data != ""
    }
  }

  /** How reading the request ends. A call has a method name. */
  datatype Request =
    | Refused(status: int, text: string)
    | Malformed(body: string, text: string)
    | Call(body: string, msg: Message, time: string)

  datatype Entry = ReadBody | Middleware(handler: Handler) | Registered(f: Function)

  type Groups = map<string, seq<Entry>>

  function ResponseArgs(outcome: Outcome): seq<Arg> {
    match outcome
    case BadParams(text) => [RpcErrorArg(RpcError(ERR_BAD_PARAMS, text, None))]
    case FailedWithCode(error) => [RpcErrorArg(error)]
    case Failed(text) => [ErrorArg(text)]
    case NoResult => []
    case Data(data) => [BytesArg(data)]
    case Unencodable(text) => [RpcErrorArg(RpcError(ERR_INTERNAL, text, None))]
  }

  function CallHandler(f: Function): Handler {
    Handler(If((v: View) => v.wrote, Return, Do(WriteResponse((m: Message) => ResponseArgs(f.call(m))), Return)), Do(Next, Return))
  }

  /** found: the handlers collected for the method, None when there is no such group. */
  function ReadBodyHandler(request: Request, found: Option<seq<Handler>>): Handler {
    Handler(
      match request
      case Refused(status, text) => Do(StopWrite(status, text), Return)
      case Malformed(body, text) => Do(SetValue(BODY_KEY, body), Do(StopWrite(STATUS_BAD_REQUEST, text), Return))
      case Call(body, msg, time) =>
        Do(SetValue(BODY_KEY, body), Do(SetMsg(msg),
          If((v: View) => v.wrote, Return, Do(SetValue(TIME_BEGIN_KEY, time), Dispatch(found))))),
      Do(Next, Return))
  }

  function Dispatch(found: Option<seq<Handler>>): Program {
    match found
    case None => Do(WriteResponse((m: Message) => [RpcErrorArg(RpcError(ERR_NO_METHOD, "wrong method", None))]), Return)
    case Some(handlers) => Do(AddHandler(handlers), Return)
  }

  function HandlerOf(entry: Entry): Handler {
    match entry
    case ReadBody => Handler(Return, Do(Next, Return))
    case Middleware(h) => h
    case Registered(f) => CallHandler(f)
  }

  function HandlersOf(entries: seq<Entry>): seq<Handler> {
    seq(|entries|, i requires 0 <= i < |entries| => HandlerOf(entries[i]))
  }

  /** The group named key applies to the calls whose method name continues it after a dot. */
  predicate Applies(key: string, name: string) {
    key != "" && name != key && key + SEPARATOR <= name
  }

  /** The handlers of the prefix groups, in the order in which the groups are visited. */
  function Prefixed(groups: Groups, name: string, order: seq<string>): seq<Handler>
    requires forall k | k in order :: k in groups
  {
    if order == [] then []
    else
      var k := order[|order| - 1];
      Prefixed(groups, name, order[..|order| - 1]) + if Applies(k, name) then HandlersOf(groups[k]) else []
  }

  /** The groups' names in some order, each once. */
  ghost predicate Lists(order: seq<string>, groups: Groups) {
    && (forall k | k in order :: k in groups)
    && (forall k | k in groups :: k in order)
    && (forall i, j | 0 <= i < j < |order| :: order[i] != order[j])
  }

  function Collected(groups: Groups, name: string, order: seq<string>): Option<seq<Handler>>
    requires forall k | k in order :: k in groups
  {
    if name !in groups then None else Some(Prefixed(groups, name, order) + HandlersOf(groups[name]))
  }

  function Found(groups: Groups, request: Request, order: seq<string>): Option<seq<Handler>>
    requires forall k | k in order :: k in groups
  {
    if request.Call? then Collected(groups, request.msg.methodName, order) else None
  }

  /** The context after a request has been served. */
  function Served(codec: Codec, groups: Groups, request: Request, order: seq<string>): Context
    requires "" in groups && groups[""] != [] && forall k | k in order :: k in groups
  {
    var root := [ReadBodyHandler(request, Found(groups, request, order))] + HandlersOf(groups[""][1..]);
    RunNext(codec, Context(root, 0, false, false, None, map[], [], []))
  }

  // ---------- The server ----------

  /** Functions sit in the group of their name, and reading the body comes first. */
  ghost predicate WellFormed(groups: Groups, funcs: map<string, Function>) {
    && "" in groups && groups[""] != [] && groups[""][0].ReadBody? && "" !in funcs
    && (forall i | 1 <= i < |groups[""]| :: groups[""][i].Middleware?)
    && (forall k, i | k in groups && k != "" && 0 <= i < |groups[k]| :: PlacedWell(k, groups[k][i], funcs))
    && (forall k | k in funcs :: k in groups && HasFunction(groups[k]))
  }

  predicate HasFunction(entries: seq<Entry>) {
    exists i: nat | i < |entries| :: entries[i].Registered?
  }

  lemma HasFunctionStill(entries: seq<Entry>, more: seq<Entry>)
    requires HasFunction(entries)
    ensures HasFunction(entries + more)
  {
    var i: nat :| i < |entries| && entries[i].Registered?;
    assert (entries + more)[i].Registered?;
  }

  ghost predicate PlacedWell(k: string, entry: Entry, funcs: map<string, Function>) {
    match entry
    case ReadBody => false
    case Middleware(_) => true
    case Registered(f) => k in funcs && funcs[k] == f && f.name == k
  }

  class Server {
    const codec: Codec
    var groups: Groups
    var funcs: map<string, Function>

    constructor (codec: Codec)
      ensures this.codec == codec && groups == map["" := [ReadBody]] && funcs == map[]
      ensures WellFormed(groups, funcs)
    {
      this.codec, groups, funcs := codec, map["" := [ReadBody]], map[];
    }

    method GetOrNewGroup(path: string) returns (entries: seq<Entry>)
      modifies this`groups
      ensures groups == if path in old(groups) then old(groups) else old(groups)[path := []]
      ensures path in groups && entries == groups[path]
    {
      if path in groups {
        return groups[path];
      }
      groups := groups[path := []];
      return [];
    }

    /** Appends middlewares to a group. */
    method Use(path: string, handlers: seq<Handler>)
      requires WellFormed(groups, funcs)
      modifies this`groups
      ensures WellFormed(groups, funcs)
      ensures path in groups && groups == old(groups)[path := groups[path]]
      ensures HandlersOf(groups[path]) == (if path in old(groups) then HandlersOf(old(groups)[path]) else []) + handlers
    {
      var entries := GetOrNewGroup(path);
      var more := seq(|handlers|, i requires 0 <= i < |handlers| => Middleware(handlers[i]));
      groups := groups[path := entries + more];
      if path in funcs {
        HasFunctionStill(entries, more);
      }
    }

    /** Registers a function under its name; a name already taken keeps its first function. */
    method RegisterFunc(f: Function)
      requires WellFormed(groups, funcs) && f.name != ""
      modifies this
      ensures WellFormed(groups, funcs)
      ensures funcs == if f.name in old(funcs) then old(funcs) else old(funcs)[f.name := f]
      ensures groups == if f.name in old(funcs) then old(groups)
                        else old(groups)[f.name := (if f.name in old(groups) then old(groups)[f.name] else []) + [Registered(f)]]
    {
      if f.name in funcs {
        return;
      }
      funcs := funcs[f.name := f];
      var entries := GetOrNewGroup(f.name);
      groups := groups[f.name := entries + [Registered(f)]];
      assert groups[f.name][|entries|].Registered?;
    }

    /** Collects the handlers for a method name, visiting the groups in any order. */
    method Collect(name: string) returns (handlers: Option<seq<Handler>>)
      ensures exists order :: Lists(order, groups) && handlers == Collected(groups, name, order)
    {
      ghost var order: seq<string> := [];
      var prefixed: seq<Handler> := [];
      var todo := groups.Keys;
      while todo != {}
        invariant todo <= groups.Keys
        invariant forall k :: k in order <==> k in groups && k !in todo
        invariant forall i, j | 0 <= i < j < |order| :: order[i] != order[j]
        invariant prefixed == Prefixed(groups, name, order)
        decreases |todo|
      {
        var k :| k in todo;
        if k != "" && name != k && k + SEPARATOR <= name {
          prefixed := prefixed + HandlersOf(groups[k]);
        }
        assert (order + [k])[..|order|] == order;
        order := order + [k];
        todo := todo - {k};
      }
      assert Lists(order, groups);
      if name !in groups {
        return None;
      }
      return Some(prefixed + HandlersOf(groups[name]));
    }

    /** Serves one request on a new context. */
    method Handle(c: RpcContext, request: Request)
      requires WellFormed(groups, funcs) && c.codec == codec
      requires c.State() == Context([], 0, false, false, None, map[], [], [])
      modifies c
      ensures exists order :: Lists(order, groups) && c.State() == Served(codec, groups, request, order)
    {
      var found := Collect(if request.Call? then request.msg.methodName else "");
      ghost var order :| Lists(order, groups)
                         && found == Collected(groups, if request.Call? then request.msg.methodName else "", order);
      var root := [ReadBodyHandler(request, if request.Call? then found else None)] + HandlersOf(groups[""][1..]);
      c.AddHandler(root);
      assert [] + root == root;
      c.Next();
      assert c.State() == Served(codec, groups, request, order);
    }
  }
}
