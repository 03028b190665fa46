/**
 The handlers a call runs through (j2rpc2/server.go): what reading the body leads to, which
 groups' handlers come in which order, and which registered function comes first.
 */
module RpcGroups {
  import opened Wrappers
  import opened HandlerChain
  import opened RpcServer
  import opened Sequences

  /** What reading the body leads to. */
  lemma ReadBodyRuns(codec: Codec, request: Request, found: Option<seq<Handler>>, c: Context)
    requires c.InRange() && !c.wrote && request.Call?
    ensures var c1 := c.(store := c.store[BODY_KEY := request.body][TIME_BEGIN_KEY := request.time], msg := Some(request.msg));
            Exec(codec, ReadBodyHandler(request, found).body, c) == Exec(codec, Dispatch(found), c1)
  {
    var p0 := ReadBodyHandler(request, found).body;
    var c0 := c.(store := c.store[BODY_KEY := request.body]);
    assert Exec(codec, p0, c) == Exec(codec, p0.then_, c0);
    var c1 := c0.(msg := Some(request.msg));
    assert Exec(codec, p0.then_, c0) == Exec(codec, p0.then_.then_, c1);
    assert Exec(codec, p0.then_.then_, c1) == Exec(codec, p0.then_.then_.no, c1);
    var c2 := c1.(store := c1.store[TIME_BEGIN_KEY := request.time]);
    assert Exec(codec, p0.then_.then_.no, c1) == Exec(codec, Dispatch(found), c2);
  }

  /** The chain after the body has been read: the root middlewares, then what was collected. */
  function AfterReadBody(root: seq<Handler>, request: Request, collected: seq<Handler>): Context
    requires request.Call?
  {
    Context([ReadBodyHandler(request, Some(collected))] + root + collected, 1, false, false, Some(request.msg),
            map[BODY_KEY := request.body, TIME_BEGIN_KEY := request.time], [], [0])
  }

  function Root(groups: Groups): seq<Handler>
    requires "" in groups && groups[""] != []
  {
    HandlersOf(groups[""][1..])
  }

  lemma ServedAfterReadBody(codec: Codec, groups: Groups, request: Request, order: seq<string>)
    requires "" in groups && groups[""] != [] && forall k | k in order :: k in groups
    requires request.Call? && request.msg.methodName in groups
    ensures Served(codec, groups, request, order)
         == RunNext(codec, AfterReadBody(Root(groups), request, Collected(groups, request.msg.methodName, order).value))
  {
    var collected := Collected(groups, request.msg.methodName, order).value;
    var h := ReadBodyHandler(request, Some(collected));
    var c := Context([h] + Root(groups), 0, false, false, None, map[], [], []);
    var c1 := Started(c);
    ReadBodyRuns(codec, request, Some(collected), c1);
    var c2 := c1.(store := c1.store[BODY_KEY := request.body][TIME_BEGIN_KEY := request.time], msg := Some(request.msg));
    var c3 := AfterReadBody(Root(groups), request, collected);
    AddedHandlers(c2, collected);
    assert c3 == c2.(handlers := c2.handlers + collected);
    assert Exec(codec, Dispatch(Some(collected)), c2) == Exec(codec, Return, c3) == c3;
    assert Exec(codec, h.deferred, c3) == Exec(codec, Return, RunNext(codec, c3));
  }

  // ---------- The collected handlers ----------

  /** The method's own handlers come last, and those of every applying group stay together and in order. */
  lemma {:induction false} GroupsContiguous(groups: Groups, name: string, order: seq<string>, n: nat)
    returns (before: seq<Handler>, after: seq<Handler>)
    requires (forall k | k in order :: k in groups) && name in groups && n < |order| && Applies(order[n], name)
    ensures before == Prefixed(groups, name, order[..n])
    ensures Prefixed(groups, name, order) == before + HandlersOf(groups[order[n]]) + after
    ensures Collected(groups, name, order) == Some(before + HandlersOf(groups[order[n]]) + after + HandlersOf(groups[name]))
  {
    var last := |order| - 1;
    if n == last {
      before, after := Prefixed(groups, name, order[..last]), [];
    } else {
      before, after := GroupsContiguous(groups, name, order[..last], n);
      assert order[..last][..n] == order[..n];
      var more := if Applies(order[last], name) then HandlersOf(groups[order[last]]) else [];
      after := after + more;
    }
  }

  lemma {:induction false} FirstFunction(entries: seq<Entry>, from_: nat) returns (i: nat)
    requires exists i: nat | from_ <= i < |entries| :: entries[i].Registered?
    requires forall j | 0 <= j < from_ && j < |entries| :: !entries[j].Registered?
    ensures i < |entries| && entries[i].Registered? && forall j | 0 <= j < i :: !entries[j].Registered?
    decreases |entries| - from_
  {
    if entries[from_].Registered? {
      i := from_;
    } else {
      i := FirstFunction(entries, from_ + 1);
    }
  }

  /** Every middleware of the server has the property ok. */
  predicate Middlewares(groups: Groups, ok: Handler -> bool) {
    forall k, i | k in groups && 0 <= i < |groups[k]| && groups[k][i].Middleware? :: ok(groups[k][i].handler)
  }

  predicate All(hs: seq<Handler>, ok: Handler -> bool) {
    forall j | 0 <= j < |hs| :: ok(hs[j])
  }

  /** A group that is not named as a function holds only middlewares. */
  lemma GroupAll(groups: Groups, funcs: map<string, Function>, ok: Handler -> bool, k: string)
    requires WellFormed(groups, funcs) && Middlewares(groups, ok) && k in groups && k != "" && k !in funcs
    ensures All(HandlersOf(groups[k]), ok)
  {
    assert forall i | 0 <= i < |groups[k]| :: PlacedWell(k, groups[k][i], funcs);
  }

  lemma {:induction false} PrefixedAll(groups: Groups, funcs: map<string, Function>, ok: Handler -> bool, name: string, order: seq<string>)
    requires WellFormed(groups, funcs) && Middlewares(groups, ok)
    requires forall k | k in order :: k in groups && (k in funcs ==> !Applies(k, name))
    ensures All(Prefixed(groups, name, order), ok)
  {
    if order != [] {
      var k, before := order[|order| - 1], order[..|order| - 1];
      PrefixedAll(groups, funcs, ok, name, before);
      if Applies(k, name) {
        GroupAll(groups, funcs, ok, k);
      }
    }
  }

  lemma RootAll(groups: Groups, funcs: map<string, Function>, ok: Handler -> bool)
    requires WellFormed(groups, funcs) && Middlewares(groups, ok)
    ensures All(Root(groups), ok)
  {
    assert forall j | 0 <= j < |Root(groups)| :: Root(groups)[j] == HandlerOf(groups[""][j + 1]);
  }

  /** In the group of a function, only middlewares come before it. */
  lemma FunctionInGroup(groups: Groups, funcs: map<string, Function>, ok: Handler -> bool, k: string) returns (i: nat)
    requires WellFormed(groups, funcs) && Middlewares(groups, ok) && k in funcs
    ensures i < |groups[k]| && groups[k][i] == Registered(funcs[k])
    ensures All(HandlersOf(groups[k])[..i], ok)
  {
    i := FirstFunction(groups[k], 0);
    assert PlacedWell(k, groups[k][i], funcs);
    forall j | 0 <= j < i ensures ok(HandlersOf(groups[k])[..i][j]) {
      assert PlacedWell(k, groups[k][j], funcs);
    }
  }

  // ---------- The function that comes first ----------

  /** The first group, in the order in which they are visited, that is a function and applies to the name; else the name itself. */
  function Winner(funcs: map<string, Function>, name: string, order: seq<string>): string {
    if order == [] then name
    else if order[0] in funcs && Applies(order[0], name) then order[0]
    else Winner(funcs, name, order[1..])
  }

  /** n is where the winner is visited, |order| when it is the name itself. */
  lemma {:induction false} WinnerMeaning(funcs: map<string, Function>, name: string, order: seq<string>) returns (n: nat)
    ensures n <= |order| && forall i | 0 <= i < n :: !(order[i] in funcs && Applies(order[i], name))
    ensures n < |order| ==> Winner(funcs, name, order) == order[n] && order[n] in funcs && Applies(order[n], name)
    ensures n == |order| ==> Winner(funcs, name, order) == name
  {
    if order == [] || (order[0] in funcs && Applies(order[0], name)) {
      n := 0;
    } else {
      var rest := order[1..];
      n := WinnerMeaning(funcs, name, rest);
      n := n + 1;
      assert forall i | 1 <= i < |order| :: order[i] == rest[i - 1];
    }
  }

  /** The name itself wins if and only if no function's name is a dotted prefix of it. */
  lemma NameWinsIff(groups: Groups, funcs: map<string, Function>, name: string, order: seq<string>)
    requires WellFormed(groups, funcs) && Lists(order, groups)
    ensures Winner(funcs, name, order) == name <==> forall f | f in funcs :: !Applies(f, name)
  {
    var n := WinnerMeaning(funcs, name, order);
    if n == |order| {
      forall f | f in funcs ensures !Applies(f, name) {
        var i :| 0 <= i < |order| && order[i] == f;
      }
    }
  }

  lemma {:induction false} SomeOrder(keys: set<string>) returns (order: seq<string>)
    ensures forall k :: k in order <==> k in keys
    ensures forall i, j | 0 <= i < j < |order| :: order[i] != order[j]
  {
    if keys == {} {
      order := [];
    } else {
      var k :| k in keys;
      order := SomeOrder(keys - {k});
      order := [k] + order;
    }
  }

  /** Of several functions named by dotted prefixes, each wins in some order of the groups. */
  lemma AnyPrefixFunctionMayWin(groups: Groups, funcs: map<string, Function>, name: string, f: string) returns (order: seq<string>)
    requires WellFormed(groups, funcs) && f in funcs && Applies(f, name)
    ensures Lists(order, groups) && Winner(funcs, name, order) == f
  {
    var rest := SomeOrder(groups.Keys - {f});
    order := [f] + rest;
  }

  /** Where the winner's handler is, with only middlewares between reading the body and it. */
  lemma WinnerInLine(groups: Groups, funcs: map<string, Function>, ok: Handler -> bool, request: Request, order: seq<string>)
    returns (k: nat)
    requires WellFormed(groups, funcs) && Middlewares(groups, ok) && (forall g | g in order :: g in groups)
    requires request.Call? && request.msg.methodName in groups && Winner(funcs, request.msg.methodName, order) in funcs
    ensures var hs := AfterReadBody(Root(groups), request, Collected(groups, request.msg.methodName, order).value).handlers;
            && 1 <= k < |hs| && hs[k] == CallHandler(funcs[Winner(funcs, request.msg.methodName, order)])
            && All(hs[1..k], ok)
  {
    var name := request.msg.methodName;
    var w, root, collected := Winner(funcs, name, order), Root(groups), Collected(groups, name, order).value;
    var before, after := BeforeWinner(groups, funcs, ok, name, order);
    var own := HandlersOf(groups[w]);
    var i := FunctionInGroup(groups, funcs, ok, w);
    RootAll(groups, funcs, ok);
    var hs := AfterReadBody(root, request, collected).handlers;
    k := 1 + |root| + |before| + i;
    InLine(hs[0], root, before, own, after, i);
  }

  lemma InLine(h: Handler, root: seq<Handler>, before: seq<Handler>, own: seq<Handler>, after: seq<Handler>, i: nat)
    requires i < |own|
    ensures var hs, k := [h] + root + (before + own + after), 1 + |root| + |before| + i;
            hs[k] == own[i] && hs[1..k] == root + before + own[..i]
  {
    var hs := [h] + root + (before + own + after);
    var front := [h] + root + before;
    Associate([h] + root, before + own, after);
    Associate([h] + root, before, own);
    assert hs == front + own + after;
    assert hs[..|front| + i] == front + own[..i];
    assert (front + own[..i])[1..] == root + before + own[..i];
  }

  /** The collected handlers, split around the winner's group. */
  lemma BeforeWinner(groups: Groups, funcs: map<string, Function>, ok: Handler -> bool, name: string, order: seq<string>)
    returns (before: seq<Handler>, after: seq<Handler>)
    requires WellFormed(groups, funcs) && Middlewares(groups, ok) && (forall g | g in order :: g in groups)
    requires name in groups && Winner(funcs, name, order) in funcs
    ensures All(before, ok)
    ensures Collected(groups, name, order) == Some(before + HandlersOf(groups[Winner(funcs, name, order)]) + after)
  {
    var n := WinnerMeaning(funcs, name, order);
    if n == |order| {
      before, after := Prefixed(groups, name, order), [];
      PrefixedAll(groups, funcs, ok, name, order);
      assert before + HandlersOf(groups[name]) + [] == before + HandlersOf(groups[name]);
    } else {
      before, after := GroupsContiguous(groups, name, order, n);
      PrefixedAll(groups, funcs, ok, name, order[..n]);
      Associate(before + HandlersOf(groups[order[n]]), after, HandlersOf(groups[name]));
      after := after + HandlersOf(groups[name]);
    }
  }
}
