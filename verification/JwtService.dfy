/**
 The session service (jwt/jwt.go) on either token store: every run of it answers as the
 session model of module Sessions does.
 */
module JwtService {
  import opened Wrappers
  import opened Sessions
  import opened TokenStores
  import RedisLayout
  import opened Strings
  import opened Sequences

  /** The two implementations behind the store interface. prefix is what the Redis store collects garbage under. */
  datatype TokenStore = InMemory(d: DefaultTokenStore) | Redis(r: RedisTokenStore, prefix: string)
  {
    ghost function Footprint(): set<object> {
      match this
      case InMemory(d) => {d}
      case Redis(r, _) => r.Footprint()
    }

    ghost predicate Valid()
      reads Footprint()
    {
      match this
      case InMemory(_) => true
      case Redis(r, _) => r.Valid()
    }

    /** The Redis store splits its keys at colons. */
    predicate SplitsAtColons() {
      Redis? ==> r.store.separator == ":"
    }

    ghost function Tokens(): map<string, Token>
      reads Footprint()
    {
      match this
      case InMemory(d) => d.tokens
      case Redis(r, _) => r.tokens
    }

    method SetToken(key: string, t: Token)
      requires Valid() && SplitsAtColons() && Contains(key, ":")
      modifies Footprint()
      ensures Valid() && Tokens() == old(Tokens())[key := t]
    {
      match this
      case InMemory(d) => d.SetToken(key, t);
      case Redis(r, _) =>
        RedisLayout.LaidOutIffSeparated(key, ":");
        r.SetToken(key, t);
    }

    method GetToken(key: string) returns (t: Option<Token>)
      requires Valid()
      modifies Footprint()
      ensures Valid() && Tokens() == old(Tokens())
      ensures t == if key in Tokens() then Some(Tokens()[key]) else None
    {
      match this
      case InMemory(d) => t := d.GetToken(key);
      case Redis(r, _) => t := r.GetToken(key);
    }

    method DelToken(key: string)
      requires Valid()
      modifies Footprint()
      ensures Valid() && Tokens() == old(Tokens()) - {key}
    {
      match this
      case InMemory(d) => d.DelToken(key);
      case Redis(r, _) => r.DelToken(key);
    }

    /** Removes all expired tokens from memory, and none from Redis. */
    method ClearExpiredToken(now: int)
      requires Valid()
      modifies Footprint()
      ensures Valid()
      ensures Tokens() == if Redis? then old(Tokens())
                          else map k | k in old(Tokens()) && !old(Tokens())[k].Expired(now) :: old(Tokens())[k]
    {
      match this
      case InMemory(d) => d.ClearExpiredToken(now);
      case Redis(r, prefix) => r.ClearExpiredToken(prefix);
    }

    /** What happens between requests: time passes, and a memory cache may lose entries. */
    method Meanwhile(seconds: nat, lost: set<string>)
      requires Valid()
      modifies Footprint()
      ensures Valid() && Tokens() == old(Tokens())
    {
      match this
      case InMemory(d) =>
      case Redis(r, _) =>
        r.Evict(lost);
        r.Tick(seconds);
    }
  }

  class JWT {
    const expire: int
    const store: TokenStore
    const keyPrefix: string
    const idOf: string -> string
    var now: int

    /** A lifetime of 0 means a week. */
    constructor (expire: int, store: TokenStore, appName: string, idOf: string -> string, now: int)
      ensures this.expire == Lifetime(expire) && this.store == store && this.idOf == idOf && this.now == now
      ensures keyPrefix == appName + ":jwt"
    {
      this.expire := if expire == 0 then 3600 * 24 * 7 else expire;
      this.store, this.keyPrefix, this.idOf, this.now := store, appName + ":jwt", idOf, now;
    }

    function Cfg(): Config {
      Config(expire, idOf)
    }

    function Key(id: string): string {
      keyPrefix + ":" + id
    }

    lemma KeysDistinct(id: string)
      ensures forall x :: Key(x) == Key(id) ==> x == id
    {
      forall x | Key(x) == Key(id) ensures x == id {
        assert x == Key(x)[|keyPrefix| + 1..] && id == Key(id)[|keyPrefix| + 1..];
      }
    }

    lemma KeyHoldsColon(id: string)
      ensures Contains(Key(id), ":")
    {
      assert OccursAt(Key(id), ":", |keyPrefix|);
    }

    /** The store is valid and takes the keys of this service. */
    ghost predicate Ready()
      reads store.Footprint()
    {
      this !in store.Footprint() && store.Valid() && store.SplitsAtColons()
    }

    ghost predicate Represents(s: State)
      reads this, store.Footprint()
    {
      && Ready() && s.now == now
      && (forall id :: id in s.tokens <==> Key(id) in store.Tokens())
      && (forall id | id in s.tokens :: store.Tokens()[Key(id)] == s.tokens[id])
      && (forall id | id in s.tokens :: s.tokens[id].id == id)
    }

    method Put(t: Token, ghost s: State, ghost s': State)
      requires Represents(s) && s' == s.(tokens := s.tokens[t.id := t])
      modifies store.Footprint()
      ensures Represents(s')
    {
      KeysDistinct(t.id);
      KeyHoldsColon(t.id);
      store.SetToken(Key(t.id), t);
    }

    method AfterLogin(id: string, token: string, ghost s: State) returns (t: Token)
      requires Represents(s)
      modifies store.Footprint()
      ensures Represents(After(Cfg(), s, Login(id, token)))
      ensures t == Token(id, now + expire, token)
    {
      t := Token(id, now + expire, token);
      ghost var s' := After(Cfg(), s, Login(id, token));
      assert s' == s.(tokens := s.tokens[t.id := t]);
      Put(t, s, s');
    }

    method Logout(id: string, ghost s: State)
      requires Represents(s)
      modifies store.Footprint()
      ensures Represents(After(Cfg(), s, Event.Logout(id)))
    {
      KeysDistinct(id);
      store.DelToken(Key(id));
    }

    method Verify(token: string, callOk: bool, ghost s: State) returns (v: Verdict)
      requires Represents(s)
      modifies store.Footprint()
      ensures v == Check(Cfg(), s, token, callOk)
      ensures Represents(After(Cfg(), s, Event.Verify(token, callOk)))
    {
      if token == "" {
        return Missing;
      }
      var id := idOf(token);
      if id == "" {
        return Malformed;
      }
      var t := store.GetToken(Key(id));
      if t.None? {
        return NotValidYet;
      }
      if t.value.Expired(now) {
        return TokenExpired;
      }
      if t.value.token != token {
        return Invalid;
      }
      if !callOk {
        return CallFailed;
      }
      RefreshToken(t.value, s);
      return Accepted;
    }

    method RefreshToken(t: Token, ghost s: State)
      requires Represents(s) && t.id in s.tokens && s.tokens[t.id] == t
      modifies store.Footprint()
      ensures Represents(s.(tokens := s.tokens[t.id := Refreshed(Cfg(), t, now)]))
    {
      if t.expiresAt - now > Half(expire) {
        assert s.tokens[t.id := t] == s.tokens;
        return;
      }
      var renewed := t.(expiresAt := now + expire);
      ghost var s' := s.(tokens := s.tokens[t.id := Refreshed(Cfg(), t, now)]);
      assert s' == s.(tokens := s.tokens[renewed.id := renewed]);
      Put(renewed, s, s');
    }

    /** cleared: the ids whose expired tokens are gone from the store. */
    method ClearExpiredToken(ghost s: State) returns (ghost cleared: set<string>)
      requires Represents(s)
      modifies store.Footprint()
      ensures Represents(After(Cfg(), s, ClearExpired(cleared)))
    {
      store.ClearExpiredToken(now);
      cleared := if store.InMemory? then s.tokens.Keys else {};
    }

    method Perform(e: Event, lost: set<string>, ghost s: State) returns (accepted: bool, ghost done: Event)
      requires Represents(s)
      modifies this, store.Footprint()
      ensures done == e || (done.ClearExpired? && e.ClearExpired?)
      ensures Represents(After(Cfg(), s, done))
      ensures accepted <==> e.Verify? && Check(Cfg(), s, e.token, e.callOk) == Accepted
    {
      accepted, done := false, e;
      match e
      case Login(id, token) =>
        var t := AfterLogin(id, token, s);
      case Logout(id) => Logout(id, s);
      case Verify(token, callOk) =>
        var v := Verify(token, callOk, s);
        accepted := v == Accepted;
      case ClearExpired(_) =>
        ghost var cleared := ClearExpiredToken(s);
        done := ClearExpired(cleared);
      case Tick(seconds) =>
        store.Meanwhile(seconds, lost);
        now := now + seconds;
    }

    /**
     A run of the service from an empty store: it accepts exactly what the model accepts, on
     whichever store, whatever the memory cache loses and whenever expired tokens are cleared.
     */
    method Run(events: seq<Event>, lost: seq<set<string>>) returns (accepted: seq<bool>)
      requires Represents(State(map[], now)) && |lost| == |events|
      modifies this, store.Footprint()
      ensures accepted == Verdicts(Cfg(), State(map[], old(now)), NeverCleared(events))
    {
      accepted := [];
      ghost var s0 := State(map[], now);
      ghost var s := s0;
      ghost var clean := s0;
      for i := 0 to |events|
        invariant Represents(s) && Cleared(s, clean)
        invariant accepted + Verdicts(Cfg(), clean, NeverCleared(events[i..])) == Verdicts(Cfg(), s0, NeverCleared(events))
      {
        ghost var e := events[i];
        ghost var clean' := After(Cfg(), clean, if e.ClearExpired? then ClearExpired({}) else e);
        var ok, done := Perform(events[i], lost[i], s);
        ClearedStep(Cfg(), s, clean, done);
        VerdictsStep(Cfg(), clean, events[i..], accepted);
        assert events[i..][1..] == events[i + 1..];
        accepted := accepted + [ok];
        s, clean := After(Cfg(), s, done), clean';
      }
    }
  }

  lemma VerdictsStep(cfg: Config, s: State, events: seq<Event>, before: seq<bool>)
    requires events != []
    ensures
      var e := events[0];
      var s' := After(cfg, s, if e.ClearExpired? then ClearExpired({}) else e);
      before + Verdicts(cfg, s, NeverCleared(events))
      == before + [e.Verify? && Check(cfg, s, e.token, e.callOk) == Accepted] + Verdicts(cfg, s', NeverCleared(events[1..]))
  {
    var e := events[0];
    var s' := After(cfg, s, if e.ClearExpired? then ClearExpired({}) else e);
    FirstVerdict(cfg, s, events);
    Associate(before, [e.Verify? && Check(cfg, s, e.token, e.callOk) == Accepted], Verdicts(cfg, s', NeverCleared(events[1..])));
  }

  lemma FirstVerdict(cfg: Config, s: State, events: seq<Event>)
    requires events != []
    ensures
      var e := events[0];
      var s' := After(cfg, s, if e.ClearExpired? then ClearExpired({}) else e);
      Verdicts(cfg, s, NeverCleared(events))
      == [e.Verify? && Check(cfg, s, e.token, e.callOk) == Accepted] + Verdicts(cfg, s', NeverCleared(events[1..]))
  {
    var cleared := NeverCleared(events);
    assert cleared[1..] == NeverCleared(events[1..]);
    assert cleared[0] == if events[0].ClearExpired? then ClearExpired({}) else events[0];
  }
}
