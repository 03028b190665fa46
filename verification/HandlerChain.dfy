/**
 The handler chain of one RPC call (j2rpc2/context.go).

 A handler is a program of context actions; Next is re-entrant, handlers may be added while the
 chain runs, and deferred code runs when a handler returns. The programs are arbitrary finite
 decision trees over what a handler can see of the context.
 */
module HandlerChain {
  import opened Wrappers

  const ERR_NO_METHOD: int := -32601
  const ERR_BAD_PARAMS: int := -32602
  const ERR_INTERNAL: int := -32603
  const STATUS_BAD_REQUEST: int := 400
  const STATUS_INTERNAL: int := 500

  // ---------- Messages ----------

  datatype RpcError = RpcError(code: int, message: string, data: Option<string>)

  /** result None is the nil payload; Some("") is an empty one, which JSON leaves out as well. */
  datatype Message = Message(id: string, version: string, methodName: string, params: string,
                             result: Option<string>, error: Option<RpcError>)

  datatype Arg = RpcErrorArg(error: RpcError) | ErrorArg(text: string) | BytesArg(data: string) | OtherArg

  /** What the client receives: a plain text with a status, or a message in its encoded form. */
  datatype Sent = Text(status: int, text: string) | Reply(msg: Message, data: string)

  /** The JSON encoder and the hook that may rewrite or refuse the encoded response. */
  datatype Codec = Codec(encode: Message -> Result<string>, beforeWrite: string -> Result<string>)

  // ---------- Handlers ----------

  /** What a handler can look at. */
  datatype View = View(abort: bool, wrote: bool, msg: Message, store: map<string, string>)

  datatype Action =
    | Next
    | Abort
    | AddHandler(handlers: seq<Handler>)
    | SetValue(key: string, value: string)
    | SetMsg(msg: Message)
    | StopWrite(status: int, text: string)
    | WriteResponse(args: Message -> seq<Arg>)

  datatype Program = Return | Do(action: Action, then_: Program) | If(cond: View -> bool, yes: Program, no: Program)

  datatype Handler = Handler(body: Program, deferred: Program)

  function Size(p: Program): nat {
    match p
    case Return => 0
    case Do(AddHandler(hs), q) => 1 + Sizes(hs) + Size(q)
    case Do(_, q) => 1 + Size(q)
    case If(_, yes, no) => 1 + Size(yes) + Size(no)
  }

  function Sizes(hs: seq<Handler>): nat {
    if hs == [] then 0 else HandlerSize(hs[0]) + Sizes(hs[1..])
  }

  function HandlerSize(h: Handler): nat {
    1 + Size(h.body) + Size(h.deferred)
  }

  lemma {:induction false} SizesConcat(a: seq<Handler>, b: seq<Handler>)
    ensures Sizes(a + b) == Sizes(a) + Sizes(b)
  {
    if a == [] {
      assert a + b == b;
    } else {
      assert (a + b)[1..] == a[1..] + b;
      SizesConcat(a[1..], b);
    }
  }

  // ---------- The context as a value ----------

  /** sent and started are history: the responses written, and the indices of the handlers started. */
  datatype Context = Context(
    handlers: seq<Handler>,
    hid: nat,
    abort: bool,
    wrote: bool,
    msg: Option<Message>,
    store: map<string, string>,
    sent: seq<Sent>,
    started: seq<nat>)
  {
    predicate InRange() {
      hid <= |handlers|
    }

    function Pending(): nat
      requires InRange()
    {
      Sizes(handlers[hid..])
    }

    function Msg(): Message {
      if msg.Some? then msg.value else Message("0", "", "", "", None, None)
    }

    function Seen(): View {
      View(abort, wrote, Msg(), store)
    }
  }

  function ArgsApplied(msg: Message, args: seq<Arg>): Message {
    if args == [] then msg
    else
      var before := ArgsApplied(msg, args[..|args| - 1]);
      match args[|args| - 1]
      case RpcErrorArg(e) => before.(error := Some(e))
      case ErrorArg(text) => before.(error := Some(RpcError(ERR_INTERNAL, text, None)))
      case BytesArg(data) => before.(result := Some(data))
      case OtherArg => before
  }

  /** The message a response to msg carries. */
  function Answer(msg: Message, args: seq<Arg>): Message {
    var m := ArgsApplied(msg, args);
    var m := if m.error == None && m.result == None then m.(result := Some("\"Success\"\n")) else m;
    if m.error != None then m.(result := None) else m
  }

  function Stopped(c: Context, status: int, text: string): Context {
    if c.wrote then c else c.(abort := true, wrote := true, sent := c.sent + [Text(status, text)])
  }

  /** An answer does not repeat the call. */
  function Outgoing(answer: Message): Message {
    answer.(methodName := "", params := "")
  }

  /** What is sent as the answer. */
  function Delivered(codec: Codec, answer: Message): Sent {
    var out := Outgoing(answer);
    var data := codec.encode(out);
    var final := if data.Ok? then codec.beforeWrite(data.value) else data;
    if final.Ok? then Reply(out, final.value) else Text(STATUS_INTERNAL, final.error)
  }

  function Responded(codec: Codec, c: Context, args: seq<Arg>): Context {
    if c.wrote then c
    else
      var answer := Answer(c.Msg(), args);
      var sent := Delivered(codec, answer);
      c.(msg := Some(answer), sent := c.sent + [sent], wrote := true, abort := c.abort || sent.Text?)
  }

  /** What an action that concerns no handler does to the context. */
  function Acted(codec: Codec, action: Action, c: Context): Context
    requires !action.Next? && !action.AddHandler?
  {
    match action
    case Abort => c.(abort := true)
    case SetValue(key, value) => c.(store := c.store[key := value])
    case SetMsg(msg) => c.(msg := Some(msg))
    case StopWrite(status, text) => Stopped(c, status, text)
    case WriteResponse(args) => Responded(codec, c, args(c.Msg()))
  }

  /** Runs a program to its end. */
  function Exec(codec: Codec, p: Program, c: Context): (r: Context)
    requires c.InRange()
    ensures r.InRange() && r.Pending() <= Size(p) + c.Pending()
    decreases Size(p) + c.Pending(), 1
  {
    match p
    case Return => c
    case If(cond, yes, no) => if cond(c.Seen()) then Exec(codec, yes, c) else Exec(codec, no, c)
    case Do(Next, q) => Exec(codec, q, RunNext(codec, c))
    case Do(AddHandler(hs), q) =>
      AddedHandlers(c, hs);
      Exec(codec, q, c.(handlers := c.handlers + hs))
    case Do(action, q) => Exec(codec, q, Acted(codec, action, c))
  }

  /** Starts the next handler, if there is one and the chain is not aborted. */
  function RunNext(codec: Codec, c: Context): (r: Context)
    requires c.InRange()
    ensures r.InRange() && r.Pending() <= c.Pending()
    decreases c.Pending(), 0
  {
    if c.abort || c.hid >= |c.handlers| then c
    else
      var h, c1 := c.handlers[c.hid], Started(c);
      Exec(codec, h.deferred, Exec(codec, h.body, c1))
  }

  function Started(c: Context): (r: Context)
    requires c.hid < |c.handlers|
    ensures r.InRange() && c.Pending() == HandlerSize(c.handlers[c.hid]) + r.Pending()
  {
    assert c.handlers[c.hid..][1..] == c.handlers[c.hid + 1..];
    c.(hid := c.hid + 1, started := c.started + [c.hid])
  }

  lemma AddedHandlers(c: Context, hs: seq<Handler>)
    requires c.InRange()
    ensures c.(handlers := c.handlers + hs).Pending() == c.Pending() + Sizes(hs)
  {
    assert (c.handlers + hs)[c.hid..] == c.handlers[c.hid..] + hs;
    SizesConcat(c.handlers[c.hid..], hs);
  }

  // ---------- Chain discipline ----------

  /** Handlers were started in index order without gaps, each once, and at most one response was written. */
  ghost predicate Disciplined(c: Context) {
    && c.InRange()
    && |c.started| == c.hid && (forall i | 0 <= i < c.hid :: c.started[i] == i)
    && |c.sent| == if c.wrote then 1 else 0
  }

  /** Handlers are only ever appended; nothing starts after an abort; a response, once written, stays the only one. */
  ghost predicate Follows(c: Context, r: Context) {
    && c.handlers <= r.handlers && c.hid <= r.hid
    && (c.abort ==> r.abort && r.started == c.started && r.hid == c.hid)
    && (c.wrote ==> r.wrote && r.sent == c.sent)
  }

  lemma FollowsChain(a: Context, b: Context, c: Context)
    requires Follows(a, b) && Follows(b, c)
    ensures Follows(a, c)
  {
  }

  lemma ActedIsDisciplined(codec: Codec, action: Action, c: Context)
    requires Disciplined(c) && !action.Next? && !action.AddHandler?
    ensures Disciplined(Acted(codec, action, c)) && Follows(c, Acted(codec, action, c))
  {
  }

  lemma {:induction false} ExecIsDisciplined(codec: Codec, p: Program, c: Context)
    requires Disciplined(c)
    ensures Disciplined(Exec(codec, p, c)) && Follows(c, Exec(codec, p, c))
    decreases Size(p) + c.Pending(), 1
  {
    match p
    case Return =>
    case If(cond, yes, no) =>
      if cond(c.Seen()) { ExecIsDisciplined(codec, yes, c); } else { ExecIsDisciplined(codec, no, c); }
    case Do(Next, q) =>
      NextIsDisciplined(codec, c);
      ExecIsDisciplined(codec, q, RunNext(codec, c));
      FollowsChain(c, RunNext(codec, c), Exec(codec, p, c));
    case Do(AddHandler(hs), q) =>
      var c1 := c.(handlers := c.handlers + hs);
      AddedHandlers(c, hs);
      ExecIsDisciplined(codec, q, c1);
      FollowsChain(c, c1, Exec(codec, p, c));
    case Do(action, q) =>
      var c1 := Acted(codec, action, c);
      ActedIsDisciplined(codec, action, c);
      ExecIsDisciplined(codec, q, c1);
      FollowsChain(c, c1, Exec(codec, p, c));
  }

  /** One call of Next, with all the handlers it leads to. */
  lemma {:induction false} NextIsDisciplined(codec: Codec, c: Context)
    requires Disciplined(c)
    ensures Disciplined(RunNext(codec, c)) && Follows(c, RunNext(codec, c))
    decreases c.Pending(), 0
  {
    if !c.abort && c.hid < |c.handlers| {
      var h, c1 := c.handlers[c.hid], Started(c);
      ExecIsDisciplined(codec, h.body, c1);
      ExecIsDisciplined(codec, h.deferred, Exec(codec, h.body, c1));
    }
  }

  // ---------- Exactly one of result and error ----------

  predicate IsError(arg: Arg) {
    arg.RpcErrorArg? || arg.ErrorArg?
  }

  /** The last payload among the arguments, or the one the request itself carried. */
  function Payload(own: Option<string>, args: seq<Arg>): Option<string> {
    if args == [] then own
    else if args[|args| - 1].BytesArg? then Some(args[|args| - 1].data)
    else Payload(own, args[..|args| - 1])
  }

  lemma {:induction false} ArgsMeaning(msg: Message, args: seq<Arg>)
    ensures ArgsApplied(msg, args).error.Some? <==> msg.error.Some? || exists i | 0 <= i < |args| :: IsError(args[i])
    ensures ArgsApplied(msg, args).result == Payload(msg.result, args)
    ensures ArgsApplied(msg, args).(error := msg.error, result := msg.result) == msg
  {
    if args != [] {
      ArgsMeaning(msg, args[..|args| - 1]);
    }
  }

  predicate CarriesResult(m: Message) {
    m.result.Some? && m.result.value != ""
  }

  /**
   A response carries exactly one of result and error, unless nothing failed and the payload is
   an empty, non-nil one: then JSON leaves out both.
   */
  lemma OneOfResultAndError(msg: Message, args: seq<Arg>)
    ensures var m := Answer(msg, args);
            && !(m.error.Some? && m.result.Some?)
            && (CarriesResult(m) != m.error.Some? <==>
                  msg.error.Some? || (exists i | 0 <= i < |args| :: IsError(args[i])) || Payload(msg.result, args) != Some(""))
  {
    ArgsMeaning(msg, args);
  }

  /** A payload reaches the client exactly if the request did not carry an error of its own. */
  lemma PayloadDeliveredIff(msg: Message, data: string)
    ensures Answer(msg, [BytesArg(data)]) == msg.(result := Some(data)) <==> msg.error == None
  {
    assert [BytesArg(data)][..0] == [];
    ArgsMeaning(msg, [BytesArg(data)]);
  }

  // ---------- The context as an object ----------

  class RpcContext {
    const codec: Codec
    var handlers: seq<Handler>
    var hid: nat
    var abort: bool
    var wrote: bool
    var msg: Option<Message>
    var store: map<string, string>
    var sent: seq<Sent>
    ghost var started: seq<nat>

    constructor (codec: Codec)
      ensures this.codec == codec && State() == Context([], 0, false, false, None, map[], [], [])
    {
      this.codec := codec;
      handlers, hid, abort, wrote, msg, store, sent, started := [], 0, false, false, None, map[], [], [];
    }

    ghost function State(): Context
      reads this
    {
      Context(handlers, hid, abort, wrote, msg, store, sent, started)
    }

    function Msg(): Message
      reads this
    {
      if msg.Some? then msg.value else Message("0", "", "", "", None, None)
    }

    method AddHandler(more: seq<Handler>)
      modifies this
      ensures State() == old(State()).(handlers := old(handlers) + more)
    {
      if |more| == 0 {
        assert handlers + more == handlers;
        return;
      }
      handlers := handlers + more;
    }

    method Next()
      requires State().InRange()
      modifies this
      ensures State() == RunNext(codec, old(State()))
      decreases State().Pending(), 0
    {
      if abort {
        return;
      }
      var index := hid;
      if index >= |handlers| {
        return;
      }
      ghost var started1 := Started(State());
      var h := handlers[index];
      hid := hid + 1;
      started := started + [index];
      Run(h.body);
      Run(h.deferred);
    }

    method StopWriteStringStatus(status: int, text: string)
      modifies this
      ensures State() == Stopped(old(State()), status, text)
    {
      if wrote {
        return;
      }
      abort := true;
      sent := sent + [Text(status, text)];
      wrote := true;
    }

    method WriteResponse(args: seq<Arg>)
      modifies this
      ensures State() == Responded(codec, old(State()), args)
    {
      if wrote {
        return;
      }
      var m := Msg();
      for i := 0 to |args|
        invariant m == ArgsApplied(Msg(), args[..i])
      {
        assert args[..i + 1][..i] == args[..i];
        match args[i]
        case RpcErrorArg(e) => m := m.(error := Some(e));
        case ErrorArg(text) => m := m.(error := Some(RpcError(ERR_INTERNAL, text, None)));
        case BytesArg(data) => m := m.(result := Some(data));
        case OtherArg =>
      }
      assert args[..|args|] == args;
      if m.error == None && m.result == None {
        m := m.(result := Some("\"Success\"\n"));
      }
      if m.error != None {
        m := m.(result := None);
      }
      msg := Some(m);
      m := m.(methodName := "", params := "");
      var data := codec.encode(m);
      if data.Err? {
        StopWriteStringStatus(STATUS_INTERNAL, data.error);
        return;
      }
      data := codec.beforeWrite(data.value);
      if data.Err? {
        StopWriteStringStatus(STATUS_INTERNAL, data.error);
        return;
      }
      sent := sent + [Reply(m, data.value)];
      wrote := true;
    }

    /** An action that concerns no handler. */
    method Act(action: Action)
      requires !action.Next? && !action.AddHandler?
      modifies this
      ensures State() == Acted(codec, action, old(State()))
    {
      match action
      case Abort => abort := true;
      case SetValue(key, value) => store := store[key := value];
      case SetMsg(m) => msg := Some(m);
      case StopWrite(status, text) => StopWriteStringStatus(status, text);
      case WriteResponse(args) => WriteResponse(args(Msg()));
    }

    /** Lets a handler's code run on the context. */
    method Run(p: Program)
      requires State().InRange()
      modifies this
      ensures State() == Exec(codec, p, old(State()))
      decreases Size(p) + State().Pending(), 1
    {
      match p
      case Return =>
      case If(cond, yes, no) =>
        if cond(View(abort, wrote, Msg(), store)) {
          Run(yes);
        } else {
          Run(no);
        }
      case Do(action, q) =>
        match action {
          case Next => Next();
          case AddHandler(hs) =>
            AddedHandlers(State(), hs);
            AddHandler(hs);
          case _ => Act(action);
        }
        Run(q);
    }
  }
}
