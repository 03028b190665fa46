/**
 Registering and finding RPC methods by name (j2rpc/j2rpc.go): services and their callbacks are
 keyed by formatted names, and a request's names are formatted before they are looked up.
 */
module MethodLookup {
  import opened Wrappers
  import opened NameMapping
  import opened Strings

  const METHOD_SEPARATOR := "."

  /** A method of a receiver; suitable says whether its argument types can be called over RPC. */
  datatype Method = Method(name: string, suitable: bool, callback: nat)

  type Callbacks = map<string, nat>

  datatype Registration = Registered | NothingSuitable | NamespaceExists

  function FormatName(snake: bool, name: string): string {
    if snake then Snake(name) else name
  }

  lemma FormatIdempotent(snake: bool, name: string)
    ensures FormatName(snake, FormatName(snake, name)) == FormatName(snake, name)
    ensures snake ==> FormatName(snake, Snake(name)) == FormatName(snake, name)
  {
    SnakeIdempotent(name);
  }

  predicate Eligible(m: Method, skips: seq<string>) {
    m.name !in skips && m.suitable
  }

  /** The callbacks of a receiver's methods; a later method takes over the key of an earlier one. */
  function SuitableCallbacks(snake: bool, skips: seq<string>, methods: seq<Method>): Callbacks {
    if methods == [] then map[]
    else
      var before, m := SuitableCallbacks(snake, skips, methods[..|methods| - 1]), methods[|methods| - 1];
      if Eligible(m, skips) then before[FormatName(snake, m.name) := m.callback] else before
  }

  /** Method i is the last eligible one under its key. */
  predicate Wins(snake: bool, skips: seq<string>, methods: seq<Method>, i: nat)
    requires i < |methods|
  {
    && Eligible(methods[i], skips)
    && forall j | i < j < |methods| && Eligible(methods[j], skips) ::
         FormatName(snake, methods[j].name) != FormatName(snake, methods[i].name)
  }

  /** A callback is found under a key exactly if some eligible method has that key. */
  lemma {:induction false} KeyFoundIff(snake: bool, skips: seq<string>, methods: seq<Method>, key: string)
    ensures key in SuitableCallbacks(snake, skips, methods) <==>
              exists i | 0 <= i < |methods| :: Eligible(methods[i], skips) && FormatName(snake, methods[i].name) == key
  {
    if methods != [] {
      var front := methods[..|methods| - 1];
      KeyFoundIff(snake, skips, front, key);
      assert forall i | 0 <= i < |front| :: front[i] == methods[i];
    }
  }

  /** The callback under a key is that of the last eligible method with that key. */
  lemma {:induction false} WinnerFound(snake: bool, skips: seq<string>, methods: seq<Method>, i: nat)
    requires i < |methods| && Wins(snake, skips, methods, i)
    ensures var key := FormatName(snake, methods[i].name);
            key in SuitableCallbacks(snake, skips, methods) && SuitableCallbacks(snake, skips, methods)[key] == methods[i].callback
  {
    var last, front := |methods| - 1, methods[..|methods| - 1];
    if i < last {
      assert Wins(snake, skips, front, i);
      WinnerFound(snake, skips, front, i);
    }
  }

  /** What a request's method name leads to. */
  function Resolve(snake: bool, services: map<string, Callbacks>, name: string): Result<nat> {
    var i := IndexOf(name, METHOD_SEPARATOR);
    if i < 0 then Err("wrong method")
    else
      var ns, m := FormatName(snake, name[..i]), FormatName(snake, name[i + 1..]);
      if ns !in services then Err("no namespace")
      else if m !in services[ns] then Err("no method")
      else Ok(services[ns][m])
  }

  class Server {
    const snake: bool
    var services: map<string, Callbacks>

    constructor (snake: bool)
      ensures this.snake == snake && services == map[]
    {
      this.snake, services := snake, map[];
    }

    method Collect(skips: seq<string>, methods: seq<Method>) returns (callbacks: Callbacks)
      ensures callbacks == SuitableCallbacks(snake, skips, methods)
    {
      callbacks := map[];
      for i := 0 to |methods|
        invariant callbacks == SuitableCallbacks(snake, skips, methods[..i])
      {
        assert methods[..i + 1][..i] == methods[..i];
        if methods[i].name in skips {
          continue;
        }
        if !methods[i].suitable {
          continue;
        }
        callbacks := callbacks[FormatName(snake, methods[i].name) := methods[i].callback];
      }
      assert methods[..|methods|] == methods;
    }

    /** given: an explicit namespace, "" when there is none; only the type's own name is formatted. */
    method Register(typeName: string, given: string, skips: seq<string>, methods: seq<Method>) returns (r: Registration)
      modifies this
      ensures
        var callbacks := SuitableCallbacks(snake, skips, methods);
        var name := Namespace(snake, typeName, given);
        && r == (if callbacks == map[] then NothingSuitable else if name in old(services) then NamespaceExists else Registered)
        && services == if r == Registered then old(services)[name := callbacks] else old(services)
    {
      var name := given;
      if |name| == 0 {
        name := FormatName(snake, typeName);
      }
      var callbacks := Collect(skips, methods);
      if callbacks == map[] {
        return NothingSuitable;
      }
      if name in services {
        return NamespaceExists;
      }
      services := services[name := callbacks];
      return Registered;
    }

    method GetCallBack(name: string) returns (r: Result<nat>)
      ensures r == Resolve(snake, services, name)
    {
      var i := IndexOf(name, METHOD_SEPARATOR);
      if i < 0 {
        return Err("wrong method");
      }
      var ns, m := FormatName(snake, name[..i]), FormatName(snake, name[i + 1..]);
      if ns !in services {
        return Err("no namespace");
      }
      if m !in services[ns] {
        return Err("no method");
      }
      return Ok(services[ns][m]);
    }
  }

  function Namespace(snake: bool, typeName: string, given: string): string {
    if given != "" then given else FormatName(snake, typeName)
  }

  // ---------- Finding methods ----------

  lemma {:induction false} FirstDot(ns: string, m: string)
    requires '.' !in ns
    ensures IndexOf(ns + METHOD_SEPARATOR + m, METHOD_SEPARATOR) == |ns|
  {
    var s := ns + METHOD_SEPARATOR + m;
    if ns == "" {
      assert METHOD_SEPARATOR <= s;
    } else {
      assert s[0] != '.' && s[1..] == ns[1..] + METHOD_SEPARATOR + m;
      FirstDot(ns[1..], m);
    }
  }

  lemma ResolveParts(snake: bool, services: map<string, Callbacks>, ns: string, m: string)
    requires '.' !in ns
    ensures Resolve(snake, services, ns + METHOD_SEPARATOR + m) ==
      if FormatName(snake, ns) !in services then Err("no namespace")
      else if FormatName(snake, m) !in services[FormatName(snake, ns)] then Err("no method")
      else Ok(services[FormatName(snake, ns)][FormatName(snake, m)])
  {
    FirstDot(ns, m);
    var s := ns + METHOD_SEPARATOR + m;
    assert s[..|ns|] == ns && s[|ns| + 1..] == m;
  }

  lemma {:induction false} SnakeKeepsDots(s: string, j: bool)
    requires '.' !in s
    ensures '.' !in SnakeFrom(s, j)
  {
    if s != "" {
      SnakeKeepsDots(s[1..], if IsUpper(s[0]) then false else j || s[0] != '_');
    }
  }

  /**
   A method registered under its type's name is found by its Go name and by its snake name, each
   behind either form of the type's name, if and only if no later method has the same key.
   */
  lemma FoundByBothNames(services: map<string, Callbacks>, skips: seq<string>, methods: seq<Method>, typeName: string, i: nat)
    requires '.' !in typeName && i < |methods| && Eligible(methods[i], skips)
    requires Snake(typeName) in services && services[Snake(typeName)] == SuitableCallbacks(true, skips, methods)
    requires forall a, b | 0 <= a < b < |methods| :: methods[a].callback != methods[b].callback
    ensures forall ns, m | ns in {typeName, Snake(typeName)} && m in {methods[i].name, Snake(methods[i].name)} ::
      Resolve(true, services, ns + METHOD_SEPARATOR + m) == Ok(methods[i].callback) <==> Wins(true, skips, methods, i)
  {
    var key := Snake(methods[i].name);
    SnakeKeepsDots(typeName, false);
    FormatIdempotent(true, typeName);
    FormatIdempotent(true, methods[i].name);
    var w := Winner(true, skips, methods, key, i);
    WinnerFound(true, skips, methods, w);
    forall ns, m | ns in {typeName, Snake(typeName)} && m in {methods[i].name, Snake(methods[i].name)}
      ensures Resolve(true, services, ns + METHOD_SEPARATOR + m) == Ok(methods[w].callback)
    {
      ResolveParts(true, services, ns, m);
    }
    assert w == i <==> Wins(true, skips, methods, i);
  }

  /** The last eligible method with a key. */
  lemma Winner(snake: bool, skips: seq<string>, methods: seq<Method>, key: string, i: nat) returns (w: nat)
    requires i < |methods| && Eligible(methods[i], skips) && FormatName(snake, methods[i].name) == key
    ensures i <= w < |methods| && Wins(snake, skips, methods, w) && FormatName(snake, methods[w].name) == key
    decreases |methods| - i
  {
    w := i;
    if j :| i < j < |methods| && Eligible(methods[j], skips) && FormatName(snake, methods[j].name) == key {
      w := Winner(snake, skips, methods, key, j);
    }
  }

  /**
   A namespace given explicitly is not formatted when it is registered, but is when it is looked
   up: some request reaches it exactly if it is its own snake name and holds no dot.
   */
  lemma GivenNamespaceReachableIff(given: string, callbacks: Callbacks, key: string)
    requires key in callbacks && Snake(key) == key
    ensures (exists name :: Resolve(true, map[given := callbacks], name).Ok?) <==> Snake(given) == given && '.' !in given
  {
    var services := map[given := callbacks];
    if Snake(given) == given && '.' !in given {
      ResolveParts(true, services, given, key);
      assert Resolve(true, services, given + METHOD_SEPARATOR + key).Ok?;
    }
    forall name | Resolve(true, services, name).Ok? ensures Snake(given) == given && '.' !in given {
      var ns := name[..IndexOf(name, METHOD_SEPARATOR)];
      NoDotBefore(name);
      SnakeIdempotent(ns);
      SnakeKeepsDots(ns, false);
    }
  }

  lemma {:induction false} NoDotBefore(name: string)
    requires IndexOf(name, METHOD_SEPARATOR) >= 0
    ensures '.' !in name[..IndexOf(name, METHOD_SEPARATOR)]
  {
    var i := IndexOf(name, METHOD_SEPARATOR);
    if i > 0 {
      NoDotBefore(name[1..]);
      assert name[..i] == [name[0]] + name[1..][..i - 1];
      assert name[0] == '.' ==> METHOD_SEPARATOR <= name;
    }
  }
}
