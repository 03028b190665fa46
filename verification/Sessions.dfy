/**
 Token sessions with sliding expiry (jwt/jwt.go), over runs of logins, logouts, verifications,
 clearings of expired tokens and passing time.
 */
module Sessions {
  import opened Wrappers

  datatype Token = Token(id: string, expiresAt: int, token: string)
  {
    predicate Expired(now: int) {
      expiresAt < now
    }
  }

  /** expire: the lifetime of a session; idOf: decrypting a token, "" when that fails. */
  datatype Config = Config(expire: int, idOf: string -> string)

  datatype State = State(tokens: map<string, Token>, now: int)

  /** token is what login generated for id. callOk: whether the application still knows the user. */
  datatype Event =
    | Login(id: string, token: string)
    | Logout(id: string)
    | Verify(token: string, callOk: bool)
    | ClearExpired(ids: set<string>)
    | Tick(seconds: nat)

  datatype Verdict = Accepted | Missing | Malformed | NotValidYet | TokenExpired | Invalid | CallFailed

  /** A lifetime of zero stands for a week. */
  function Lifetime(expire: int): int {
    if expire == 0 then 3600 * 24 * 7 else expire
  }

  /** Half of a lifetime, rounded towards zero. */
  function Half(expire: int): int {
    if expire >= 0 then expire / 2 else -(-expire / 2)
  }

  function Check(cfg: Config, s: State, token: string, callOk: bool): Verdict {
    var id := cfg.idOf(token);
    if token == "" then Missing
    else if id == "" then Malformed
    else if id !in s.tokens then NotValidYet
    else if s.tokens[id].Expired(s.now) then TokenExpired
    else if s.tokens[id].token != token then Invalid
    else if !callOk then CallFailed
    else Accepted
  }

  /** Renews a token of which at most half the lifetime is left. */
  function Refreshed(cfg: Config, t: Token, now: int): Token {
    if t.expiresAt - now > Half(cfg.expire) then t else t.(expiresAt := now + cfg.expire)
  }

  function After(cfg: Config, s: State, e: Event): State {
    match e
    case Login(id, token) => s.(tokens := s.tokens[id := Token(id, s.now + cfg.expire, token)])
    case Logout(id) => s.(tokens := s.tokens - {id})
    case Verify(token, callOk) =>
      if Check(cfg, s, token, callOk) != Accepted then s
      else
        var id := cfg.idOf(token);
        s.(tokens := s.tokens[id := Refreshed(cfg, s.tokens[id], s.now)])
    case ClearExpired(ids) => s.(tokens := map id | id in s.tokens && !(id in ids && s.tokens[id].Expired(s.now)) :: s.tokens[id])
    case Tick(seconds) => s.(now := s.now + seconds)
  }

  function Final(cfg: Config, s: State, events: seq<Event>): State
    decreases |events|
  {
    if events == [] then s else Final(cfg, After(cfg, s, events[0]), events[1..])
  }

  /** Which verifications were accepted; other events count as not accepted. */
  function Verdicts(cfg: Config, s: State, events: seq<Event>): seq<bool>
    decreases |events|
  {
    if events == [] then []
    else
      var e := events[0];
      [e.Verify? && Check(cfg, s, e.token, e.callOk) == Accepted] + Verdicts(cfg, After(cfg, s, e), events[1..])
  }

  // ---------- Clearing expired tokens is invisible ----------

  /** The same run without any clearing. */
  function NeverCleared(events: seq<Event>): seq<Event> {
    if events == [] then []
    else [if events[0].ClearExpired? then ClearExpired({}) else events[0]] + NeverCleared(events[1..])
  }

  /** a is b without some expired tokens. */
  ghost predicate Cleared(a: State, b: State) {
    && a.now == b.now
    && (forall id | id in a.tokens :: id in b.tokens && b.tokens[id] == a.tokens[id])
    && (forall id | id in b.tokens && id !in a.tokens :: b.tokens[id].Expired(b.now))
  }

  lemma ClearedStep(cfg: Config, a: State, b: State, e: Event)
    requires Cleared(a, b)
    ensures Cleared(After(cfg, a, e), After(cfg, b, if e.ClearExpired? then ClearExpired({}) else e))
    ensures e.Verify? ==> (Check(cfg, a, e.token, e.callOk) == Accepted <==> Check(cfg, b, e.token, e.callOk) == Accepted)
  {
  }

  /** Removing expired tokens, whichever and whenever, never changes what is accepted. */
  lemma {:induction false} ClearingIsInvisible(cfg: Config, a: State, b: State, events: seq<Event>)
    requires Cleared(a, b)
    ensures Verdicts(cfg, a, events) == Verdicts(cfg, b, NeverCleared(events))
    ensures Cleared(Final(cfg, a, events), Final(cfg, b, NeverCleared(events)))
    decreases |events|
  {
    if events != [] {
      var e := events[0];
      var e' := if e.ClearExpired? then ClearExpired({}) else e;
      ClearedStep(cfg, a, b, e);
      ClearingIsInvisible(cfg, After(cfg, a, e), After(cfg, b, e'), events[1..]);
      assert NeverCleared(events)[1..] == NeverCleared(events[1..]) && NeverCleared(events)[0] == e';
    }
  }

  // ---------- Only the latest token ----------

  /** The token of the latest login of id without a later logout; before says what it was at the start. */
  function Current(before: Option<string>, events: seq<Event>, id: string): Option<string>
    decreases |events|
  {
    if events == [] then before
    else
      var now := match events[0]
        case Login(x, token) => if x == id then Some(token) else before
        case Logout(x) => if x == id then None else before
        case _ => before;
      Current(now, events[1..], id)
  }

  lemma {:induction false} StoredIsCurrent(cfg: Config, s: State, events: seq<Event>, id: string, before: Option<string>)
    requires before == if id in s.tokens then Some(s.tokens[id].token) else None
    ensures var r := Final(cfg, s, NeverCleared(events));
            Current(before, events, id) == if id in r.tokens then Some(r.tokens[id].token) else None
    decreases |events|
  {
    if events != [] {
      var e := events[0];
      var e' := if e.ClearExpired? then ClearExpired({}) else e;
      assert NeverCleared(events)[1..] == NeverCleared(events[1..]) && NeverCleared(events)[0] == e';
      var s' := After(cfg, s, e');
      StoredIsCurrent(cfg, s', events[1..], id, if id in s'.tokens then Some(s'.tokens[id].token) else None);
    }
  }

  /** Until when a session would live if nothing were ever cleared. */
  function Deadline(cfg: Config, s: State, events: seq<Event>, id: string): Option<int> {
    var r := Final(cfg, s, NeverCleared(events));
    if id in r.tokens then Some(r.tokens[id].expiresAt) else None
  }

  /**
   After any run from an empty store, whatever was cleared in it, a token is accepted exactly if it
   is the one of the latest login of its id, not logged out since, its deadline has not passed, and
   the application knows the user.
   */
  lemma AcceptedIff(cfg: Config, start: int, events: seq<Event>, token: string, callOk: bool)
    ensures var s0, id := State(map[], start), cfg.idOf(token);
            Check(cfg, Final(cfg, s0, events), token, callOk) == Accepted <==>
              && token != "" && id != "" && callOk
              && Current(None, events, id) == Some(token)
              && Deadline(cfg, s0, events, id).Some? && Final(cfg, s0, events).now <= Deadline(cfg, s0, events, id).value
  {
    var s0, id := State(map[], start), cfg.idOf(token);
    ClearingIsInvisible(cfg, s0, s0, events);
    StoredIsCurrent(cfg, s0, events, id, None);
  }

  // ---------- Sliding expiry ----------

  /**
   From last on, the session of token is neither replaced nor logged out, and successful
   verifications come at gaps of at most half the lifetime plus one second.
   */
  predicate Steady(cfg: Config, now: int, events: seq<Event>, token: string, last: int)
    decreases |events|
  {
    events == [] || (
      match events[0]
      case Login(id, _) => id != cfg.idOf(token) && Steady(cfg, now, events[1..], token, last)
      case Logout(id) => id != cfg.idOf(token) && Steady(cfg, now, events[1..], token, last)
      case Verify(t, callOk) =>
        if t == token && callOk then now - last <= Half(cfg.expire) + 1 && Steady(cfg, now, events[1..], token, now)
        else Steady(cfg, now, events[1..], token, last)
      case ClearExpired(_) => Steady(cfg, now, events[1..], token, last)
      case Tick(seconds) => Steady(cfg, now + seconds, events[1..], token, last)
    )
  }

  /** More than half the lifetime was left at the last verification, or the session is beyond that half already. */
  predicate Fresh(cfg: Config, s: State, token: string, last: int) {
    var id := cfg.idOf(token);
    if id in s.tokens then s.tokens[id].token == token && s.tokens[id].expiresAt > last + Half(cfg.expire)
    else s.now > last + Half(cfg.expire) + 1
  }

  /** A session verified at gaps of at most half the lifetime, plus one second, never expires: every such verification is accepted. */
  lemma {:induction false} SteadyNeverExpires(cfg: Config, s: State, events: seq<Event>, token: string, last: int)
    requires cfg.expire >= 1 && token != "" && cfg.idOf(token) != "" && last <= s.now
    requires Fresh(cfg, s, token, last) && Steady(cfg, s.now, events, token, last)
    ensures |Verdicts(cfg, s, events)| == |events|
    ensures forall i | 0 <= i < |events| && events[i] == Verify(token, true) :: Verdicts(cfg, s, events)[i]
    decreases |events|
  {
    if events != [] {
      var e := events[0];
      var s' := After(cfg, s, e);
      var last' := if e == Verify(token, true) then s.now else last;
      SteadyNeverExpires(cfg, s', events[1..], token, last');
      forall i | 0 <= i < |events| && events[i] == Verify(token, true) ensures Verdicts(cfg, s, events)[i] {
        if i > 0 {
          assert events[1..][i - 1] == events[i];
        }
      }
    }
  }

  /** In particular from a login on. */
  lemma LoginStartsSteady(cfg: Config, s: State, token: string)
    requires cfg.expire >= 1
    ensures Fresh(cfg, After(cfg, s, Login(cfg.idOf(token), token)), token, s.now)
  {
  }

  /** A login and everything after it, as long as the gaps are kept. */
  lemma SteadySession(cfg: Config, s: State, events: seq<Event>, token: string)
    requires cfg.expire >= 1 && token != "" && cfg.idOf(token) != ""
    requires Steady(cfg, s.now, events, token, s.now)
    ensures |Verdicts(cfg, After(cfg, s, Login(cfg.idOf(token), token)), events)| == |events|
    ensures forall i | 0 <= i < |events| && events[i] == Verify(token, true) ::
              Verdicts(cfg, After(cfg, s, Login(cfg.idOf(token), token)), events)[i]
  {
    LoginStartsSteady(cfg, s, token);
    SteadyNeverExpires(cfg, After(cfg, s, Login(cfg.idOf(token), token)), events, token, s.now);
  }

  /** Any longer gap can be fatal: a verification just before the last half of the lifetime does not renew the session. */
  lemma LongerGapExpires(cfg: Config, s: State, token: string, gap: nat)
    requires cfg.expire >= 1 && token != "" && cfg.idOf(token) != "" && gap > Half(cfg.expire) + 1
    ensures
      var s1 := After(cfg, s, Login(cfg.idOf(token), token));
      var s2 := After(cfg, s1, Tick(cfg.expire - Half(cfg.expire) - 1));
      var s3 := After(cfg, After(cfg, s2, Verify(token, true)), Tick(gap));
      Check(cfg, s2, token, true) == Accepted && Check(cfg, s3, token, true) == TokenExpired
  {
  }
}
