/**
 Client connections of `opennotrd/core/server.go`: every accepted connection runs `onConn`, all of them
 share the address pool, the routes of the plugin manager and the session table. An action is one
 operation of one connection on what they share, so runs of actions are the interleavings of all
 connections. Deferred calls are kept on a stack per connection and run one at a time.
 */
module Server {
  import opened Basics
  import opened Plugin

  type ConnId = nat

  // ---------- randomDomain ----------

  const ALPHABET := "123456789abcdefghijklmnopqrstuvwxyz"

  // The digits of num in base 35, the lowest first.
  function RandomDomain(num: int): string
    decreases num
  {
    if num <= 0 then "" else [ALPHABET[num % 35]] + RandomDomain(num / 35)
  }

  /** Positive numbers have different names, so clock values that differ do. */
  lemma {:induction false} RandomDomainExact(m: int, n: int)
    requires m >= 0 && n >= 0
    ensures RandomDomain(m) == RandomDomain(n) <==> m == n
    decreases m
  {
    if m > 0 && n > 0 {
      RandomDomainExact(m / 35, n / 35);
      AlphabetDistinct(m % 35, n % 35);
      if RandomDomain(m) == RandomDomain(n) {
        assert RandomDomain(m)[0] == RandomDomain(n)[0];
        assert RandomDomain(m)[1..] == RandomDomain(n)[1..];
      }
    }
  }

  lemma AlphabetDistinct(i: nat, j: nat)
    requires i < 35 && j < 35
    ensures ALPHABET[i] == ALPHABET[j] <==> i == j
  {
    AlphabetIs(i);
    AlphabetIs(j);
  }

  /** A name read back in base 35, the lowest digit first: 1 to 9 stand for 0 to 8, a to z for 9 to 34. */
  function ReadDomain(s: string): int {
    if s == "" then 0
    else (if s[0] <= '9' then s[0] as int - '1' as int else s[0] as int - 'a' as int + 9) + 35 * ReadDomain(s[1..])
  }

  lemma {:induction false} RandomDomainReads(n: nat)
    ensures ReadDomain(RandomDomain(n)) == n
    ensures forall c :: c in RandomDomain(n) ==> '1' <= c <= '9' || 'a' <= c <= 'z'
    decreases n
  {
    if n > 0 {
      AlphabetIs(n % 35);
      RandomDomainReads(n / 35);
      assert RandomDomain(n)[1..] == RandomDomain(n / 35);
    }
  }

  lemma AlphabetIs(i: nat)
    requires i < 35
    ensures ALPHABET[i] as int == if i < 9 then '1' as int + i else 'a' as int + i - 9
  {
    assert forall k :: 0 <= k < 9 ==> ALPHABET[k] as int == '1' as int + k;
    assert forall k :: 9 <= k < 35 ==> ALPHABET[k] as int == 'a' as int + k - 9;
  }

  method MakeRandomDomain(now: int) returns (rs: string)
    ensures rs == RandomDomain(now)
  {
    rs := "";
    var num := now;
    while num > 0
      invariant rs + RandomDomain(num) == RandomDomain(now)
    {
      ConcatAssoc(rs, [ALPHABET[num % 35]], RandomDomain(num / 35));
      rs := rs + [ALPHABET[num % 35]];
      num := num / 35;
    }
  }

  // ---------- connections ----------

  // ForwardItem: `ports` maps public to local ports.
  datatype Forward = Forward(protocol: string, ports: map<int, string>)

  datatype C2SAuth = C2SAuth(key: string, domain: string, forward: seq<Forward>)

  datatype S2CAuth = S2CAuth(vip: string, domain: string, proxyInfos: seq<ProxyTuple>)

  datatype Deferred = CloseConn | DelProxy(item: Meta) | DeleteSession(vip: string)

  datatype Phase =
    | Authorizing
    | Selecting
    | Resolving
    | Adding(todo: seq<Forward>)
    | Replying
    | Registering
    | Serving
    | Unwinding   // a return was reached: the deferred calls run
    | Finished

  datatype Conn = Conn(
    phase: Phase,
    auth: C2SAuth,
    vip: Option<string>,
    deferred: seq<Deferred>,
    infos: seq<ProxyTuple>,
    reply: Option<S2CAuth>)

  datatype State = State(
    free: set<string>,
    inuse: set<string>,
    manager: Manager,
    sessions: map<string, ConnId>,
    conns: map<ConnId, Conn>)

  datatype Config = Config(authKey: string, domain: string, plugins: set<string>, hasResolver: bool)

  function Initial(pool: set<string>): State {
    State(pool, {}, Manager(map[], []), map[], map[])
  }

  datatype Action =
    | Accept
    | Authorize(auth: C2SAuth, now: int)
    | Select(vip: string)
    | SelectFails
    | Resolve
    | AddNext(port: int, answer: Option<ProxyTuple>)
    | NextForward
    | AddedAll
    | Reply
    | Register
    | Fail      // ReadJSON, ApplyDomain, WriteJSON or smux.Server returned an error
    | HangUp    // the multiplexer is closed
    | Unwind

  // The item for one port of a forward; `x` is the connection, whose address has been selected.
  function Item(cfg: Config, c: ConnId, x: Conn, f: Forward, port: int): Meta
    requires x.vip.Some? && port in f.ports
  {
    Meta(c, f.protocol, Listen(port), x.vip.value + ":" + f.ports[port], x.auth.domain)
  }

  predicate Enabled(cfg: Config, s: State, c: ConnId, a: Action) {
    if a == Accept then c !in s.conns
    else
      c in s.conns &&
      var x := s.conns[c];
      match a
      case Accept => false
      case Authorize(_, _) => x.phase == Authorizing
      case Select(vip) => x.phase == Selecting && vip in s.free
      case SelectFails => x.phase == Selecting && s.free == {}
      case Resolve => x.phase == Resolving && x.vip.Some?
      case AddNext(port, _) =>
        x.phase.Adding? && x.vip.Some? && x.phase.todo != [] && port in x.phase.todo[0].ports
      case NextForward => x.phase.Adding? && x.phase.todo != [] && x.phase.todo[0].ports == map[]
      case AddedAll => x.phase == Adding([])
      case Reply => x.phase == Replying && x.vip.Some?
      case Register => x.phase == Registering && x.vip.Some?
      case Fail =>
        x.phase == Authorizing || (x.phase == Resolving && cfg.hasResolver) || x.phase == Replying || x.phase == Registering
      case HangUp => x.phase == Serving
      case Unwind => x.phase == Unwinding && x.deferred != []
  }

  function Put(s: State, c: ConnId, x: Conn): State {
    s.(conns := s.conns[c := x])
  }

  // The deferred call on top of the stack is made.
  function RunDeferred(cfg: Config, s: State, d: Deferred): State {
    match d
    case CloseConn => s
    case DelProxy(item) => s.(manager := Deleted(s.manager, cfg.plugins, item))
    case DeleteSession(vip) => s.(sessions := s.sessions - {vip})
  }

  // One port of the first forward is done.
  function Rest(todo: seq<Forward>, port: int): seq<Forward>
    requires todo != []
  {
    [Forward(todo[0].protocol, todo[0].ports - {port})] + todo[1..]
  }

  function Apply(cfg: Config, s: State, c: ConnId, a: Action): State
    requires Enabled(cfg, s, c, a)
  {
    if a == Accept then Put(s, c, Conn(Authorizing, C2SAuth("", "", []), None, [CloseConn], [], None))
    else
      var x := s.conns[c];
      match a
      // lines 74-90
      case Authorize(auth, now) =>
        if auth.key != cfg.authKey then Put(s, c, x.(phase := Unwinding))
        else
          var domain := if auth.domain == "" then RandomDomain(now) + "." + cfg.domain else auth.domain;
          Put(s, c, x.(phase := Selecting, auth := auth.(domain := domain)))
      // lines 95-99
      case Select(vip) =>
        Put(s, c, x.(phase := Resolving, vip := Some(vip))).(free := s.free - {vip}, inuse := s.inuse + {vip})
      case SelectFails => Put(s, c, x.(phase := Unwinding))
      // lines 103-109
      case Resolve => Put(s, c, x.(phase := Adding(x.auth.forward)))
      // lines 121-144
      case AddNext(port, answer) =>
        var todo := x.phase.todo;
        var item := Item(cfg, c, x, todo[0], port);
        if !Admits(s.manager, cfg.plugins, item) || answer == None then Put(s, c, x.(phase := Unwinding))
        else
          var info := ProxyTuple(todo[0].protocol, answer.value.fromPort, answer.value.toPort);
          Put(s, c, x.(phase := Adding(Rest(todo, port)), infos := x.infos + [info], deferred := x.deferred + [DelProxy(item)]))
          .(manager := Added(s.manager, item))
      case NextForward => Put(s, c, x.(phase := Adding(x.phase.todo[1..])))
      case AddedAll => Put(s, c, x.(phase := Replying))
      // lines 146-156
      case Reply =>
        Put(s, c, x.(phase := Registering, reply := Some(S2CAuth(x.vip.value, x.auth.domain, x.infos))))
      // lines 158-166
      case Register =>
        Put(s, c, x.(phase := Serving, deferred := x.deferred + [DeleteSession(x.vip.value)]))
        .(sessions := s.sessions[x.vip.value := c])
      case Fail => Put(s, c, x.(phase := Unwinding))
      // lines 168-175
      case HangUp => Put(s, c, x.(phase := Unwinding))
      case Unwind =>
        var n := |x.deferred| - 1;
        Put(RunDeferred(cfg, s, x.deferred[n]), c,
            x.(deferred := x.deferred[..n], phase := if n == 0 then Finished else Unwinding))
  }

  // ---------- what every interleaving keeps ----------

  // A deferred call of c has something of c's to give back.
  predicate Backed(s: State, c: ConnId, d: Deferred) {
    match d
    case CloseConn => true
    case DelProxy(item) => item.owner == c && Routed(s.manager, item)
    case DeleteSession(vip) =>
      c in s.conns && s.conns[c].vip == Some(vip) && vip in s.sessions && s.sessions[vip] == c
  }

  ghost predicate Distinct<T>(q: seq<T>) {
    forall i, j :: 0 <= i < j < |q| ==> q[i] != q[j]
  }

  predicate BeforeSession(p: Phase) {
    !p.Serving? && !p.Unwinding? && !p.Finished?
  }

  // What holds of a connection by itself.
  ghost predicate StackOk(inuse: set<string>, x: Conn) {
    && (x.phase == Finished <==> x.deferred == [])
    && Distinct(x.deferred)
    && (x.phase == Authorizing || x.phase == Selecting ==> x.vip == None)
    && (x.vip.Some? ==> x.vip.value in inuse)
    && (x.vip.Some? && BeforeSession(x.phase) ==> DeleteSession(x.vip.value) !in x.deferred)
  }

  ghost predicate StacksOk(s: State) {
    forall c :: c in s.conns ==> StackOk(s.inuse, s.conns[c])
  }

  ghost predicate AllBacked(s: State) {
    forall c, d :: c in s.conns && d in s.conns[c].deferred ==> Backed(s, c, d)
  }

  // Who holds a route or a session is going to give it back.
  ghost predicate Owned(s: State) {
    && (forall k :: k in s.manager.routes ==>
          var item := s.manager.routes[k];
          item.owner in s.conns && DelProxy(item) in s.conns[item.owner].deferred)
    && (forall v :: v in s.sessions ==>
          s.sessions[v] in s.conns && DeleteSession(v) in s.conns[s.sessions[v]].deferred)
  }

  ghost predicate VipsDistinct(s: State) {
    && s.free !! s.inuse
    && forall c, d :: c in s.conns && d in s.conns && c != d && s.conns[c].vip.Some? ==> s.conns[c].vip != s.conns[d].vip
  }

  ghost predicate Inv(cfg: Config, s: State) {
    Consistent(s.manager, cfg.plugins) && StacksOk(s) && AllBacked(s) && Owned(s) && VipsDistinct(s)
  }

  lemma InitialInv(cfg: Config, pool: set<string>)
    ensures Inv(cfg, Initial(pool))
  {
  }

  // ---------- the parts of a step by c, after which x is in its place ----------

  lemma StacksKept(s: State, t: State, c: ConnId, x: Conn)
    requires StacksOk(s) && t.conns == s.conns[c := x] && s.inuse <= t.inuse && StackOk(t.inuse, x)
    ensures StacksOk(t)
  {
    hide Distinct;
  }

  lemma VipsKept(s: State, t: State)
    requires VipsDistinct(s) && t.free == s.free && t.inuse == s.inuse && t.conns.Keys == s.conns.Keys
    requires forall c :: c in s.conns ==> t.conns[c].vip == s.conns[c].vip
    ensures VipsDistinct(t)
  {
  }

  // Routes and sessions of c stay with their deferred calls, new ones are c's; other owners stay.
  lemma OwnedKept(s: State, t: State, c: ConnId, x: Conn)
    requires Owned(s) && t.conns == s.conns[c := x]
    requires forall k :: k in t.manager.routes ==>
      var item := t.manager.routes[k];
      if item.owner == c then DelProxy(item) in x.deferred else k in s.manager.routes && s.manager.routes[k] == item
    requires forall v :: v in t.sessions ==>
      if t.sessions[v] == c then DeleteSession(v) in x.deferred else v in s.sessions && s.sessions[v] == t.sessions[v]
    ensures Owned(t)
  {
  }

  // A step that only moves c on, leaving its deferred calls and all that is shared alone.
  lemma MoveKeeps(cfg: Config, s: State, c: ConnId, x: Conn)
    requires Inv(cfg, s) && c in s.conns
    requires x.deferred == s.conns[c].deferred && x.vip == s.conns[c].vip
    requires StackOk(s.inuse, x)
    ensures Inv(cfg, Put(s, c, x))
  {
    var t := Put(s, c, x);
    StacksKept(s, t, c, x);
    VipsKept(s, t);
    OwnedKept(s, t, c, x);
    hide Consistent, StacksOk, Owned, VipsDistinct, StackOk;
    forall d: ConnId, e | d in t.conns && e in t.conns[d].deferred
      ensures Backed(t, d, e)
    {
      assert Backed(s, d, e);
    }
  }

  lemma AcceptKeeps(cfg: Config, s: State, c: ConnId)
    requires Inv(cfg, s) && Enabled(cfg, s, c, Accept)
    ensures Inv(cfg, Apply(cfg, s, c, Accept))
  {
    var t := Apply(cfg, s, c, Accept);
    StacksKept(s, t, c, t.conns[c]);
    OwnedKept(s, t, c, t.conns[c]);
    hide Consistent, StacksOk, Owned, StackOk;
    forall d: ConnId, e | d in t.conns && e in t.conns[d].deferred
      ensures Backed(t, d, e)
    {
      assert d != c ==> Backed(s, d, e);
    }
  }

  lemma SelectKeeps(cfg: Config, s: State, c: ConnId, vip: string)
    requires Inv(cfg, s) && Enabled(cfg, s, c, Select(vip))
    ensures Inv(cfg, Apply(cfg, s, c, Select(vip)))
  {
    var t := Apply(cfg, s, c, Select(vip));
    assert StackOk(s.inuse, s.conns[c]);
    forall d: ConnId, e | d in t.conns && e in t.conns[d].deferred
      ensures Backed(t, d, e) && e != DeleteSession(vip)
    {
      assert Backed(s, d, e) && StackOk(s.inuse, s.conns[d]);
    }
    StacksKept(s, t, c, t.conns[c]);
    OwnedKept(s, t, c, t.conns[c]);
    SelectDistinct(cfg, s, c, vip);
    hide Consistent, StacksOk, Owned, VipsDistinct, StackOk, Backed, Apply;
  }

  // The address was free, so no one has it.
  lemma SelectDistinct(cfg: Config, s: State, c: ConnId, vip: string)
    requires Inv(cfg, s) && Enabled(cfg, s, c, Select(vip))
    ensures VipsDistinct(Apply(cfg, s, c, Select(vip)))
  {
    assert forall d :: d in s.conns ==> StackOk(s.inuse, s.conns[d]);
    hide Consistent, Owned, Distinct, AllBacked;
  }

  lemma RoutedAfterAdd(m: Manager, plugins: set<string>, item: Meta, other: Meta)
    requires Admits(m, plugins, item)
    ensures Routed(Added(m, item), item)
    ensures Routed(m, other) ==> Routed(Added(m, item), other) && other != item
  {
  }

  lemma RoutedAfterDelete(m: Manager, plugins: set<string>, item: Meta, other: Meta)
    requires Routed(m, item)
    ensures Routed(m, other) && other != item <==> Routed(Deleted(m, plugins, item), other)
  {
  }

  // Pushing something new keeps a stack without repetitions.
  lemma Push<T>(q: seq<T>, d: T)
    requires Distinct(q) && d !in q
    ensures Distinct(q + [d]) && forall e :: e in q + [d] <==> e in q || e == d
  {
  }

  // A connection gets a route and defers its deletion.
  lemma AddedKeeps(cfg: Config, s: State, c: ConnId, x: Conn, item: Meta)
    requires Inv(cfg, s) && c in s.conns && Admits(s.manager, cfg.plugins, item) && item.owner == c
    requires x.deferred == s.conns[c].deferred + [DelProxy(item)] && x.vip == s.conns[c].vip
    requires x.phase.Adding? && s.conns[c].phase.Adding?
    ensures Inv(cfg, Put(s, c, x).(manager := Added(s.manager, item)))
  {
    var t := Put(s, c, x).(manager := Added(s.manager, item));
    AddedConsistent(s.manager, cfg.plugins, item);
    AddedBacked(cfg, s, c, x, item);
    AddedStack(cfg, s, c, x, item);
    StacksKept(s, t, c, x);
    VipsKept(s, t);
    hide Consistent, StacksOk, VipsDistinct, AllBacked, StackOk;
    OwnedKept(s, t, c, x);
  }

  lemma AddedBacked(cfg: Config, s: State, c: ConnId, x: Conn, item: Meta)
    requires AllBacked(s) && c in s.conns && Admits(s.manager, cfg.plugins, item) && item.owner == c
    requires x.deferred == s.conns[c].deferred + [DelProxy(item)] && x.vip == s.conns[c].vip
    ensures AllBacked(Put(s, c, x).(manager := Added(s.manager, item)))
  {
    var t := Put(s, c, x).(manager := Added(s.manager, item));
    RoutedAfterAdd(s.manager, cfg.plugins, item, item);
    forall d: ConnId, e | d in t.conns && e in t.conns[d].deferred
      ensures Backed(t, d, e)
    {
      if e != DelProxy(item) {
        assert Backed(s, d, e);
        if e.DelProxy? {
          RoutedAfterAdd(s.manager, cfg.plugins, item, e.item);
        }
      }
    }
  }

  lemma AddedStack(cfg: Config, s: State, c: ConnId, x: Conn, item: Meta)
    requires StacksOk(s) && AllBacked(s) && c in s.conns && Admits(s.manager, cfg.plugins, item)
    requires x.deferred == s.conns[c].deferred + [DelProxy(item)] && x.vip == s.conns[c].vip
    requires x.phase.Adding? && s.conns[c].phase.Adding?
    ensures StackOk(s.inuse, x)
  {
    var was := s.conns[c];
    assert StackOk(s.inuse, was);
    if DelProxy(item) in was.deferred {
      assert Backed(s, c, DelProxy(item));
      RoutedAfterAdd(s.manager, cfg.plugins, item, item);
    }
    Push(was.deferred, DelProxy(item));
  }

  lemma AddKeeps(cfg: Config, s: State, c: ConnId, port: int, answer: Option<ProxyTuple>)
    requires Inv(cfg, s) && Enabled(cfg, s, c, AddNext(port, answer))
    ensures Inv(cfg, Apply(cfg, s, c, AddNext(port, answer)))
  {
    var x := s.conns[c];
    var item := Item(cfg, c, x, x.phase.todo[0], port);
    assert StackOk(s.inuse, x);
    hide Identify, Routed, Consistent, Distinct;
    if Admits(s.manager, cfg.plugins, item) && answer.Some? {
      AddedKeeps(cfg, s, c, Apply(cfg, s, c, AddNext(port, answer)).conns[c], item);
    } else {
      MoveKeeps(cfg, s, c, x.(phase := Unwinding));
    }
  }

  // AddSession never replaces a session.
  lemma RegisterFree(cfg: Config, s: State, c: ConnId)
    requires Inv(cfg, s) && Enabled(cfg, s, c, Register)
    ensures s.conns[c].vip.value !in s.sessions
  {
    var v := s.conns[c].vip.value;
    assert StackOk(s.inuse, s.conns[c]);
    assert v in s.sessions ==> Backed(s, s.sessions[v], DeleteSession(v));
  }

  lemma RegisterKeeps(cfg: Config, s: State, c: ConnId)
    requires Inv(cfg, s) && Enabled(cfg, s, c, Register)
    ensures Inv(cfg, Apply(cfg, s, c, Register))
  {
    hide Apply, Consistent, StacksOk, VipsDistinct, AllBacked, Owned;
    RegisterFree(cfg, s, c);
    RegisterStack(cfg, s, c);
    RegisterBacked(cfg, s, c);
    RegisterOwned(cfg, s, c);
    RegisterVips(cfg, s, c);
  }

  lemma RegisterVips(cfg: Config, s: State, c: ConnId)
    requires VipsDistinct(s) && Enabled(cfg, s, c, Register)
    ensures VipsDistinct(Apply(cfg, s, c, Register)) && Apply(cfg, s, c, Register).manager == s.manager
  {
    VipsKept(s, Apply(cfg, s, c, Register));
    hide VipsDistinct;
  }

  lemma RegisterStack(cfg: Config, s: State, c: ConnId)
    requires StacksOk(s) && Enabled(cfg, s, c, Register)
    ensures StacksOk(Apply(cfg, s, c, Register))
  {
    var x, t := s.conns[c], Apply(cfg, s, c, Register);
    assert StackOk(s.inuse, x);
    Push(x.deferred, DeleteSession(x.vip.value));
    hide Distinct;
    assert StackOk(t.inuse, t.conns[c]);
    hide StackOk, StacksOk;
    StacksKept(s, t, c, t.conns[c]);
  }

  lemma RegisterOwned(cfg: Config, s: State, c: ConnId)
    requires Owned(s) && Enabled(cfg, s, c, Register)
    ensures Owned(Apply(cfg, s, c, Register))
  {
    var x, t := s.conns[c], Apply(cfg, s, c, Register);
    assert t.conns[c].deferred[|x.deferred|] == DeleteSession(x.vip.value);
    assert forall d :: d in x.deferred ==> d in t.conns[c].deferred;
    OwnedKept(s, t, c, t.conns[c]);
  }

  lemma RegisterBacked(cfg: Config, s: State, c: ConnId)
    requires AllBacked(s) && Enabled(cfg, s, c, Register) && s.conns[c].vip.value !in s.sessions
    ensures AllBacked(Apply(cfg, s, c, Register))
  {
    var x, t := s.conns[c], Apply(cfg, s, c, Register);
    forall d: ConnId, e | d in t.conns && e in t.conns[d].deferred
      ensures Backed(t, d, e)
    {
      if d != c || e != DeleteSession(x.vip.value) {
        assert Backed(s, d, e);
      }
    }
  }

  // The top of the stack is not elsewhere on it.
  lemma Pop<T>(q: seq<T>)
    requires q != [] && Distinct(q)
    ensures var n := |q| - 1; Distinct(q[..n]) && q[n] !in q[..n] && forall d :: d in q <==> d in q[..n] || d == q[n]
  {
    assert q == q[..|q| - 1] + [q[|q| - 1]];
  }

  // t comes from s by the deferred call on top of the stack of c.
  predicate Unwound(cfg: Config, s: State, t: State, c: ConnId) {
    && c in s.conns && s.conns[c].deferred != [] && c in t.conns
    && var x := s.conns[c];
       var n := |x.deferred| - 1;
       && s.conns[c].phase == Unwinding
       && t.conns[c] == x.(deferred := x.deferred[..n], phase := t.conns[c].phase)
       && t.conns[c].phase == (if n == 0 then Finished else Unwinding)
       && t.conns == s.conns[c := t.conns[c]]
       && t.free == s.free && t.inuse == s.inuse
       && match x.deferred[n]
          case CloseConn => t.manager == s.manager && t.sessions == s.sessions
          case DelProxy(item) => t.manager == Deleted(s.manager, cfg.plugins, item) && t.sessions == s.sessions
          case DeleteSession(vip) => t.manager == s.manager && t.sessions == s.sessions - {vip}
  }

  lemma UnwindIsUnwound(cfg: Config, s: State, c: ConnId)
    requires Enabled(cfg, s, c, Unwind)
    ensures Unwound(cfg, s, Apply(cfg, s, c, Unwind), c)
  {
  }

  lemma UnwoundStack(cfg: Config, s: State, t: State, c: ConnId)
    requires StacksOk(s) && Unwound(cfg, s, t, c)
    ensures var q := s.conns[c].deferred; var n := |q| - 1;
      Distinct(q) && q[n] !in q[..n] && forall d :: d in q <==> d in q[..n] || d == q[n]
    ensures StacksOk(t)
  {
    assert StackOk(s.inuse, s.conns[c]);
    Pop(s.conns[c].deferred);
    StacksKept(s, t, c, t.conns[c]);
  }

  lemma UnwoundOwned(cfg: Config, s: State, t: State, c: ConnId)
    requires Inv(cfg, s) && Unwound(cfg, s, t, c)
    ensures Owned(t)
  {
    UnwoundStack(cfg, s, t, c);
    UnwoundRoutes(cfg, s, t, c);
    UnwoundSessions(cfg, s, t, c);
    hide StacksOk, VipsDistinct, AllBacked, Consistent, Owned, Deleted;
    OwnedKept(s, t, c, t.conns[c]);
  }

  // A route that is left to c has its deferred call below the top; the others are as they were.
  lemma UnwoundRoutes(cfg: Config, s: State, t: State, c: ConnId)
    requires Inv(cfg, s) && Unwound(cfg, s, t, c)
    ensures forall k :: k in t.manager.routes ==>
      && k in s.manager.routes && s.manager.routes[k] == t.manager.routes[k]
      && (t.manager.routes[k].owner == c ==> DelProxy(t.manager.routes[k]) in t.conns[c].deferred)
  {
    UnwoundStack(cfg, s, t, c);
    hide StacksOk, VipsDistinct, AllBacked, Replay, Identify, Distinct;
  }

  lemma UnwoundSessions(cfg: Config, s: State, t: State, c: ConnId)
    requires StacksOk(s) && Owned(s) && Unwound(cfg, s, t, c)
    ensures forall v :: v in t.sessions ==>
      && v in s.sessions && s.sessions[v] == t.sessions[v]
      && (t.sessions[v] == c ==> DeleteSession(v) in t.conns[c].deferred)
  {
    UnwoundStack(cfg, s, t, c);
    hide StacksOk, Distinct, Deleted;
  }

  lemma UnwoundBacked(cfg: Config, s: State, t: State, c: ConnId)
    requires Inv(cfg, s) && Unwound(cfg, s, t, c)
    ensures AllBacked(t)
  {
    UnwoundStack(cfg, s, t, c);
    var top := s.conns[c].deferred[|s.conns[c].deferred| - 1];
    assert Backed(s, c, top);
    hide StacksOk, Consistent, Owned, Distinct, Deleted, Routed, Identify;
    forall d: ConnId, e | d in t.conns && e in t.conns[d].deferred
      ensures Backed(t, d, e)
    {
      assert Backed(s, d, e);
      if e.DelProxy? && top.DelProxy? {
        RoutedAfterDelete(s.manager, cfg.plugins, top.item, e.item);
      }
    }
  }

  lemma UnwoundConsistent(cfg: Config, s: State, t: State, c: ConnId)
    requires Consistent(s.manager, cfg.plugins) && AllBacked(s) && Unwound(cfg, s, t, c)
    ensures Consistent(t.manager, cfg.plugins)
  {
    var top := s.conns[c].deferred[|s.conns[c].deferred| - 1];
    assert Backed(s, c, top);
    if top.DelProxy? {
      DeletedConsistent(s.manager, cfg.plugins, top.item);
    }
  }

  lemma UnwoundVips(cfg: Config, s: State, t: State, c: ConnId)
    requires VipsDistinct(s) && Unwound(cfg, s, t, c)
    ensures VipsDistinct(t)
  {
    hide VipsDistinct;
    VipsKept(s, t);
  }

  lemma UnwindKeeps(cfg: Config, s: State, c: ConnId)
    requires Inv(cfg, s) && Enabled(cfg, s, c, Unwind)
    ensures Inv(cfg, Apply(cfg, s, c, Unwind))
  {
    var t := Apply(cfg, s, c, Unwind);
    UnwindIsUnwound(cfg, s, c);
    hide Apply, Enabled, Unwound, Consistent, StacksOk, AllBacked, Owned, VipsDistinct;
    UnwoundStack(cfg, s, t, c);
    UnwoundOwned(cfg, s, t, c);
    UnwoundBacked(cfg, s, t, c);
    UnwoundConsistent(cfg, s, t, c);
    UnwoundVips(cfg, s, t, c);
  }

  lemma StepKeeps(cfg: Config, s: State, c: ConnId, a: Action)
    requires Inv(cfg, s) && Enabled(cfg, s, c, a)
    ensures Inv(cfg, Apply(cfg, s, c, a))
  {
    hide Inv, Apply, Enabled;
    match a
    case Accept => AcceptKeeps(cfg, s, c);
    case Select(vip) => SelectKeeps(cfg, s, c, vip);
    case AddNext(port, answer) => AddKeeps(cfg, s, c, port, answer);
    case Register => RegisterKeeps(cfg, s, c);
    case Unwind => UnwindKeeps(cfg, s, c);
    case _ => RestKeeps(cfg, s, c, a);
  }

  lemma RestKeeps(cfg: Config, s: State, c: ConnId, a: Action)
    requires Inv(cfg, s) && Enabled(cfg, s, c, a)
    requires !a.Accept? && !a.Select? && !a.AddNext? && !a.Register? && !a.Unwind?
    ensures Inv(cfg, Apply(cfg, s, c, a))
  {
    assert StackOk(s.inuse, s.conns[c]);
    hide Inv;
    MoveKeeps(cfg, s, c, Apply(cfg, s, c, a).conns[c]);
  }

  // ---------- runs ----------

  // What one connection does next.
  datatype Event = Event(conn: ConnId, action: Action)

  predicate IsRun(cfg: Config, s: State, run: seq<Event>)
    decreases |run|
  {
    run == []
    || (Enabled(cfg, s, run[0].conn, run[0].action) && IsRun(cfg, Apply(cfg, s, run[0].conn, run[0].action), run[1..]))
  }

  function Run(cfg: Config, s: State, run: seq<Event>): State
    requires IsRun(cfg, s, run)
    decreases |run|
  {
    if run == [] then s else Run(cfg, Apply(cfg, s, run[0].conn, run[0].action), run[1..])
  }

  lemma {:induction false} RunKeeps(cfg: Config, s: State, run: seq<Event>)
    requires Inv(cfg, s) && IsRun(cfg, s, run)
    ensures Inv(cfg, Run(cfg, s, run))
    decreases |run|
  {
    hide Inv;
    if run != [] {
      StepKeeps(cfg, s, run[0].conn, run[0].action);
      RunKeeps(cfg, Apply(cfg, s, run[0].conn, run[0].action), run[1..]);
    }
  }

  lemma ReachableInv(cfg: Config, pool: set<string>, run: seq<Event>)
    requires IsRun(cfg, Initial(pool), run)
    ensures Inv(cfg, Run(cfg, Initial(pool), run))
  {
    InitialInv(cfg, pool);
    RunKeeps(cfg, Initial(pool), run);
  }

  // The keys a connection has added and not yet deleted.
  function HeldKeys(x: Conn): set<string> {
    set d | d in x.deferred && d.DelProxy? :: Identify(d.item)
  }

  /** The routes are the disjoint union of the keys held by connections; a finished one holds none. */
  lemma RoutesAreOwned(cfg: Config, pool: set<string>, run: seq<Event>)
    requires IsRun(cfg, Initial(pool), run)
    ensures var s := Run(cfg, Initial(pool), run);
      && (forall k :: k in s.manager.routes <==> exists c :: c in s.conns && k in HeldKeys(s.conns[c]))
      && (forall c, d :: c in s.conns && d in s.conns && c != d ==> HeldKeys(s.conns[c]) !! HeldKeys(s.conns[d]))
      && (forall c, k :: c in s.conns && k in HeldKeys(s.conns[c]) ==> k in s.manager.routes && s.manager.routes[k].owner == c)
      && (forall c :: c in s.conns && s.conns[c].phase == Finished ==> HeldKeys(s.conns[c]) == {})
  {
    ReachableInv(cfg, pool, run);
    OwnedRoutes(cfg, Run(cfg, Initial(pool), run));
  }

  lemma OwnedRoutes(cfg: Config, s: State)
    requires Inv(cfg, s)
    ensures forall k :: k in s.manager.routes <==> exists c :: c in s.conns && k in HeldKeys(s.conns[c])
    ensures forall c, k :: c in s.conns && k in HeldKeys(s.conns[c]) ==> k in s.manager.routes && s.manager.routes[k].owner == c
  {
    forall c, k | c in s.conns && k in HeldKeys(s.conns[c])
      ensures k in s.manager.routes && s.manager.routes[k].owner == c
    {
      var d :| d in s.conns[c].deferred && d.DelProxy? && Identify(d.item) == k;
      assert Backed(s, c, d);
    }
    forall k | k in s.manager.routes
      ensures exists c :: c in s.conns && k in HeldKeys(s.conns[c])
    {
      var item := s.manager.routes[k];
      assert DelProxy(item) in s.conns[item.owner].deferred && Identify(item) == k;
      assert k in HeldKeys(s.conns[item.owner]);
    }
  }

  /**
   The calls to the plugins: no item is ever started under the key of one that is not stopped, every
   StopProxy is for an item that was started, and the items started and not stopped are the routed ones.
   */
  lemma ProxiesInStep(cfg: Config, pool: set<string>, run: seq<Event>)
    requires IsRun(cfg, Initial(pool), run)
    ensures var s := Run(cfg, Initial(pool), run); Replay(s.manager.calls) == Some(s.manager.routes)
  {
    ReachableInv(cfg, pool, run);
  }

  /**
   No address is given to two connections, however long ago the first one ended: onConn never gives
   an address back. And what is looked up under an address is the session of the client that got it.
   */
  lemma VipsNeverRepeat(cfg: Config, pool: set<string>, run: seq<Event>)
    requires IsRun(cfg, Initial(pool), run)
    ensures var s := Run(cfg, Initial(pool), run);
      && (forall c, d :: c in s.conns && d in s.conns && c != d && s.conns[c].vip.Some? ==> s.conns[c].vip != s.conns[d].vip)
      && (forall v :: v in s.sessions ==> s.sessions[v] in s.conns && s.conns[s.sessions[v]].vip == Some(v))
  {
    ReachableInv(cfg, pool, run);
    var s := Run(cfg, Initial(pool), run);
    forall v | v in s.sessions
      ensures s.sessions[v] in s.conns && s.conns[s.sessions[v]].vip == Some(v)
    {
      assert Backed(s, s.sessions[v], DeleteSession(v));
    }
  }

  // ---------- leaving ----------

  predicate HasSession(s: State, vip: string, c: ConnId) {
    vip in s.sessions && s.sessions[vip] == c
  }

  /** One step of a connection leaves every route and every session of the others as they are. */
  lemma StepTouchesOwn(cfg: Config, s: State, c: ConnId, a: Action)
    requires Inv(cfg, s) && Enabled(cfg, s, c, a)
    ensures forall item: Meta :: item.owner != c ==>
      (Routed(s.manager, item) <==> Routed(Apply(cfg, s, c, a).manager, item))
    ensures forall v, d :: d != c ==> (HasSession(s, v, d) <==> HasSession(Apply(cfg, s, c, a), v, d))
  {
    hide Inv, Apply, Enabled, Routed, Unwound;
    match a
    case Unwind =>
      UnwindIsUnwound(cfg, s, c);
      UnwoundTouchesOwn(cfg, s, Apply(cfg, s, c, Unwind), c);
    case Register =>
      RegisterFree(cfg, s, c);
      RegisterTouchesOwn(cfg, s, c);
    case AddNext(port, answer) => AddTouchesOwn(cfg, s, c, port, answer);
    case _ => MoveTouchesNothing(cfg, s, c, a);
  }

  lemma MoveTouchesNothing(cfg: Config, s: State, c: ConnId, a: Action)
    requires Enabled(cfg, s, c, a) && !a.AddNext? && !a.Register? && !a.Unwind?
    ensures Apply(cfg, s, c, a).manager == s.manager && Apply(cfg, s, c, a).sessions == s.sessions
  {
  }

  lemma RegisterTouchesOwn(cfg: Config, s: State, c: ConnId)
    requires Enabled(cfg, s, c, Register) && s.conns[c].vip.value !in s.sessions
    ensures Apply(cfg, s, c, Register).manager == s.manager
    ensures forall v, d :: d != c ==> (HasSession(s, v, d) <==> HasSession(Apply(cfg, s, c, Register), v, d))
  {
  }

  lemma AddTouchesOwn(cfg: Config, s: State, c: ConnId, port: int, answer: Option<ProxyTuple>)
    requires Enabled(cfg, s, c, AddNext(port, answer))
    ensures var t := Apply(cfg, s, c, AddNext(port, answer));
      t.sessions == s.sessions && forall item: Meta :: item.owner != c ==> (Routed(s.manager, item) <==> Routed(t.manager, item))
  {
  }

  lemma UnwoundTouchesOwn(cfg: Config, s: State, t: State, c: ConnId)
    requires Inv(cfg, s) && Unwound(cfg, s, t, c)
    ensures forall item: Meta :: item.owner != c ==> (Routed(s.manager, item) <==> Routed(t.manager, item))
    ensures forall v, d :: d != c ==> (HasSession(s, v, d) <==> HasSession(t, v, d))
  {
    var top := s.conns[c].deferred[|s.conns[c].deferred| - 1];
    assert Backed(s, c, top);
    hide Inv, Identify, Deleted;
    if top.DelProxy? {
      forall item: Meta
        ensures Routed(s.manager, item) && item != top.item <==> Routed(t.manager, item)
      {
        RoutedAfterDelete(s.manager, cfg.plugins, top.item, item);
      }
    }
    hide Routed;
  }

  // The deferred calls of c, one after the other.
  function Leave(cfg: Config, s: State, c: ConnId): State
    requires c in s.conns && s.conns[c].phase == Unwinding
    decreases if c in s.conns then |s.conns[c].deferred| else 0
  {
    if s.conns[c].deferred == [] then s
    else
      var t := Apply(cfg, s, c, Unwind);
      if t.conns[c].phase == Unwinding then Leave(cfg, t, c) else t
  }

  function RoutesOfOthers(s: State, c: ConnId): map<string, Meta> {
    map k | k in s.manager.routes && s.manager.routes[k].owner != c :: s.manager.routes[k]
  }

  function SessionsOfOthers(s: State, c: ConnId): map<string, ConnId> {
    map v | v in s.sessions && s.sessions[v] != c :: s.sessions[v]
  }

  lemma UnwoundKeepsRoutes(cfg: Config, s: State, t: State, c: ConnId)
    requires AllBacked(s) && Unwound(cfg, s, t, c)
    ensures RoutesOfOthers(t, c) == RoutesOfOthers(s, c)
  {
    var top := s.conns[c].deferred[|s.conns[c].deferred| - 1];
    assert Backed(s, c, top);
    hide AllBacked, Identify;
  }

  lemma UnwoundKeepsSessions(cfg: Config, s: State, t: State, c: ConnId)
    requires AllBacked(s) && Unwound(cfg, s, t, c)
    ensures SessionsOfOthers(t, c) == SessionsOfOthers(s, c)
  {
    var top := s.conns[c].deferred[|s.conns[c].deferred| - 1];
    assert Backed(s, c, top);
    hide AllBacked, Routed;
  }

  // A connection without deferred calls holds nothing.
  lemma NothingLeft(cfg: Config, s: State, c: ConnId)
    requires Inv(cfg, s) && c in s.conns && s.conns[c].deferred == []
    ensures RoutesOfOthers(s, c) == s.manager.routes && SessionsOfOthers(s, c) == s.sessions
  {
  }

  lemma LeaveMoves(cfg: Config, s: State, c: ConnId)
    requires c in s.conns && s.conns[c].phase == Unwinding && s.conns[c].deferred != []
    ensures Enabled(cfg, s, c, Unwind)
    ensures var t := Apply(cfg, s, c, Unwind);
      && c in t.conns && |t.conns[c].deferred| == |s.conns[c].deferred| - 1
      && t.conns[c].phase in {Unwinding, Finished}
      && Leave(cfg, s, c) == if t.conns[c].phase == Unwinding then Leave(cfg, t, c) else t
  {
  }

  // t is s with c gone, and with what was c's.
  predicate Gone(s: State, t: State, c: ConnId)
    requires c in s.conns
  {
    && t.conns == s.conns[c := s.conns[c].(phase := Finished, deferred := [])]
    && t.manager.routes == RoutesOfOthers(s, c) && t.sessions == SessionsOfOthers(s, c)
    && t.free == s.free && t.inuse == s.inuse
  }

  lemma GoneAfterUnwind(cfg: Config, s: State, t: State, c: ConnId)
    requires Inv(cfg, s) && Enabled(cfg, s, c, Unwind)
    requires c in Apply(cfg, s, c, Unwind).conns && Gone(Apply(cfg, s, c, Unwind), t, c)
    ensures Gone(s, t, c)
  {
    var u := Apply(cfg, s, c, Unwind);
    UnwindIsUnwound(cfg, s, c);
    UnwoundKeepsRoutes(cfg, s, u, c);
    UnwoundKeepsSessions(cfg, s, u, c);
    hide Inv, RoutesOfOthers, SessionsOfOthers, Apply, Enabled;
  }

  lemma GoneAlready(cfg: Config, s: State, c: ConnId)
    requires Inv(cfg, s) && c in s.conns && s.conns[c].phase == Finished
    ensures Gone(s, s, c)
  {
    assert StackOk(s.inuse, s.conns[c]);
    NothingLeft(cfg, s, c);
    hide Inv, RoutesOfOthers, SessionsOfOthers;
  }

  /**
   From whichever return, the deferred calls take away all routes and the session of the connection and
   nothing else.
   */
  lemma {:induction false} LeaveRemovesOwn(cfg: Config, s: State, c: ConnId)
    requires Inv(cfg, s) && c in s.conns && s.conns[c].phase == Unwinding
    ensures Gone(s, Leave(cfg, s, c), c)
    decreases |s.conns[c].deferred|
  {
    assert StackOk(s.inuse, s.conns[c]);
    LeaveMoves(cfg, s, c);
    UnwindKeeps(cfg, s, c);
    hide Inv, Gone, Apply, Enabled, Leave, StackOk;
    var t := Apply(cfg, s, c, Unwind);
    if t.conns[c].phase == Unwinding {
      LeaveRemovesOwn(cfg, t, c);
    } else {
      GoneAlready(cfg, t, c);
    }
    GoneAfterUnwind(cfg, s, Leave(cfg, s, c), c);
  }

  // ---------- the reply ----------

  // The items for the ports of `todo`.
  function Requested(cfg: Config, c: ConnId, x: Conn, todo: seq<Forward>): set<Meta>
    requires x.vip.Some?
  {
    set f, p | f in todo && p in f.ports :: Item(cfg, c, x, f, p)
  }

  function HeldItems(deferred: seq<Deferred>): set<Meta> {
    set d | d in deferred && d.DelProxy? :: d.item
  }

  // How many of the deferred calls are of DelProxy.
  function Dels(deferred: seq<Deferred>): nat
    decreases |deferred|
  {
    if deferred == [] then 0
    else Dels(deferred[..|deferred| - 1]) + if deferred[|deferred| - 1].DelProxy? then 1 else 0
  }

  lemma HeldMore(deferred: seq<Deferred>, d: Deferred)
    ensures HeldItems(deferred + [d]) == HeldItems(deferred) + if d.DelProxy? then {d.item} else {}
    ensures Dels(deferred + [d]) == Dels(deferred) + if d.DelProxy? then 1 else 0
  {
    var more := deferred + [d];
    assert more[..|deferred|] == deferred;
    assert more[|deferred|] == d;
    assert forall e :: e in more <==> e in deferred || e == d;
  }

  lemma {:induction false} DelsCount(deferred: seq<Deferred>)
    requires Distinct(deferred)
    ensures |HeldItems(deferred)| == Dels(deferred)
    decreases |deferred|
  {
    if deferred == [] {
      assert HeldItems(deferred) == {};
    } else {
      var init, d := deferred[..|deferred| - 1], deferred[|deferred| - 1];
      Pop(deferred);
      DelsCount(init);
      HeldMore(init, d);
      assert deferred == init + [d];
      assert d.DelProxy? ==> d.item !in HeldItems(init);
    }
  }

  lemma RequestedRest(cfg: Config, c: ConnId, x: Conn, todo: seq<Forward>, port: int)
    requires x.vip.Some? && todo != [] && port in todo[0].ports
    ensures Requested(cfg, c, x, todo) == Requested(cfg, c, x, Rest(todo, port)) + {Item(cfg, c, x, todo[0], port)}
  {
    var rest := Rest(todo, port);
    forall f, p | f in todo && p in f.ports
      ensures Item(cfg, c, x, f, p) in Requested(cfg, c, x, rest) + {Item(cfg, c, x, todo[0], port)}
    {
      if f == todo[0] && p != port {
        assert rest[0] in rest && p in rest[0].ports;
        assert Item(cfg, c, x, f, p) == Item(cfg, c, x, rest[0], p);
      } else if f != todo[0] {
        assert f in rest;
      }
    }
    forall f, p | f in rest && p in f.ports
      ensures Item(cfg, c, x, f, p) in Requested(cfg, c, x, todo)
    {
      if f == rest[0] {
        assert todo[0] in todo && p in todo[0].ports && Item(cfg, c, x, f, p) == Item(cfg, c, x, todo[0], p);
      } else {
        assert f in todo;
      }
    }
    assert todo[0] in todo;
  }

  lemma RequestedNext(cfg: Config, c: ConnId, x: Conn, todo: seq<Forward>)
    requires x.vip.Some? && todo != [] && todo[0].ports == map[]
    ensures Requested(cfg, c, x, todo) == Requested(cfg, c, x, todo[1..])
  {
    assert forall f :: f in todo <==> f == todo[0] || f in todo[1..];
  }

  // How far a connection has come with what its client asked for.
  predicate Progress(cfg: Config, c: ConnId, x: Conn) {
    match x.phase
    case Authorizing => HeldItems(x.deferred) == {} && Dels(x.deferred) == |x.infos|
    case Selecting => HeldItems(x.deferred) == {} && Dels(x.deferred) == |x.infos|
    case Resolving => x.vip.Some? && HeldItems(x.deferred) == {} && Dels(x.deferred) == |x.infos|
    case Adding(todo) =>
      && x.vip.Some? && Dels(x.deferred) == |x.infos|
      && Requested(cfg, c, x, x.auth.forward) == HeldItems(x.deferred) + Requested(cfg, c, x, todo)
    case Replying => AddedEverything(cfg, c, x)
    case Registering => AddedEverything(cfg, c, x) && x.reply == Some(S2CAuth(x.vip.value, x.auth.domain, x.infos))
    case Serving => AddedEverything(cfg, c, x) && x.reply == Some(S2CAuth(x.vip.value, x.auth.domain, x.infos))
    case Unwinding => true
    case Finished => true
  }

  predicate AddedEverything(cfg: Config, c: ConnId, x: Conn) {
    x.vip.Some? && Requested(cfg, c, x, x.auth.forward) == HeldItems(x.deferred) && Dels(x.deferred) == |x.infos|
  }

  ghost predicate AllProgress(cfg: Config, s: State) {
    forall c :: c in s.conns ==> Progress(cfg, c, s.conns[c])
  }

  lemma ProgressAdd(cfg: Config, c: ConnId, x: Conn, port: int, info: ProxyTuple)
    requires x.phase.Adding? && Progress(cfg, c, x) && x.phase.todo != [] && port in x.phase.todo[0].ports
    ensures var todo := x.phase.todo;
      Progress(cfg, c, x.(phase := Adding(Rest(todo, port)), infos := x.infos + [info],
                          deferred := x.deferred + [DelProxy(Item(cfg, c, x, todo[0], port))]))
  {
    var todo := x.phase.todo;
    var item := Item(cfg, c, x, todo[0], port);
    var y := x.(phase := Adding(Rest(todo, port)), infos := x.infos + [info], deferred := x.deferred + [DelProxy(item)]);
    RequestedRest(cfg, c, x, todo, port);
    HeldMore(x.deferred, DelProxy(item));
    SameRequest(cfg, c, x, y, x.auth.forward);
    SameRequest(cfg, c, x, y, Rest(todo, port));
    MoveOne(HeldItems(x.deferred), Requested(cfg, c, x, Rest(todo, port)), item);
    hide Requested, HeldItems, Item, Rest, Dels;
  }

  lemma MoveOne<T>(a: set<T>, b: set<T>, x: T)
    ensures a + (b + {x}) == (a + {x}) + b
  {
  }

  // What is requested depends on the address and the request alone.
  lemma SameRequest(cfg: Config, c: ConnId, x: Conn, y: Conn, todo: seq<Forward>)
    requires x.vip.Some? && y.vip == x.vip && y.auth == x.auth
    ensures Requested(cfg, c, y, todo) == Requested(cfg, c, x, todo)
  {
    forall f, p | f in todo && p in f.ports
      ensures Item(cfg, c, x, f, p) == Item(cfg, c, y, f, p)
    {
    }
  }

  lemma NoneRequested(cfg: Config, c: ConnId, x: Conn)
    requires x.vip.Some?
    ensures Requested(cfg, c, x, []) == {}
  {
  }

  lemma NothingHeld()
    ensures HeldItems([CloseConn]) == {} && Dels([CloseConn]) == 0
  {
    HeldMore([], CloseConn);
    assert [] + [CloseConn] == [CloseConn];
  }

  lemma StepProgress(cfg: Config, s: State, c: ConnId, a: Action)
    requires AllProgress(cfg, s) && Enabled(cfg, s, c, a)
    ensures AllProgress(cfg, Apply(cfg, s, c, a))
  {
    var y := Apply(cfg, s, c, a).conns[c];
    if a.AddNext? {
      AddProgress(cfg, s, c, a.port, a.answer);
    } else {
      MoveProgress(cfg, s, c, a);
    }
    assert forall d :: d in Apply(cfg, s, c, a).conns && d != c ==> d in s.conns && Apply(cfg, s, c, a).conns[d] == s.conns[d];
    hide Apply, Progress;
  }

  lemma AddProgress(cfg: Config, s: State, c: ConnId, port: int, answer: Option<ProxyTuple>)
    requires AllProgress(cfg, s) && Enabled(cfg, s, c, AddNext(port, answer))
    ensures Progress(cfg, c, Apply(cfg, s, c, AddNext(port, answer)).conns[c])
  {
    var x, y := s.conns[c], Apply(cfg, s, c, AddNext(port, answer)).conns[c];
    assert Progress(cfg, c, x);
    if y.phase.Adding? {
      ProgressAdd(cfg, c, x, port, ProxyTuple(x.phase.todo[0].protocol, answer.value.fromPort, answer.value.toPort));
      hide Progress;
    }
  }

  lemma MoveProgress(cfg: Config, s: State, c: ConnId, a: Action)
    requires AllProgress(cfg, s) && Enabled(cfg, s, c, a) && !a.AddNext?
    ensures Progress(cfg, c, Apply(cfg, s, c, a).conns[c])
  {
    NothingHeld();
    hide HeldItems, Dels, Requested, Item, Admits, Added, Rest, RunDeferred, RandomDomain;
    var y := Apply(cfg, s, c, a).conns[c];
    assert c in s.conns ==> Progress(cfg, c, s.conns[c]);
    match a
    case NextForward =>
      var x := s.conns[c];
      SameRequest(cfg, c, x, y, x.auth.forward);
      RequestedNext(cfg, c, x, x.phase.todo);
      SameRequest(cfg, c, x, y, y.phase.todo);
    case Resolve =>
      var asked := Requested(cfg, c, y, y.auth.forward);
      assert asked == {} + asked;
    case AddedAll =>
      var x := s.conns[c];
      assert Progress(cfg, c, x);
      SameRequest(cfg, c, x, y, x.auth.forward);
      NoneRequested(cfg, c, x);
    case Reply =>
      SameRequest(cfg, c, s.conns[c], y, y.auth.forward);
    case Register =>
      var x := s.conns[c];
      SameRequest(cfg, c, x, y, x.auth.forward);
      HeldMore(x.deferred, DeleteSession(x.vip.value));
    case _ =>
  }

  lemma {:induction false} RunProgress(cfg: Config, s: State, run: seq<Event>)
    requires AllProgress(cfg, s) && IsRun(cfg, s, run)
    ensures AllProgress(cfg, Run(cfg, s, run))
    decreases |run|
  {
    hide AllProgress;
    if run != [] {
      StepProgress(cfg, s, run[0].conn, run[0].action);
      RunProgress(cfg, Apply(cfg, s, run[0].conn, run[0].action), run[1..]);
    }
  }

  /**
   A client that has its reply has everything it asked for: each of its ports is routed to its address,
   for it and no one else, nothing else is routed for it, and the reply has one entry for each.
   */
  lemma ReplyIsComplete(cfg: Config, pool: set<string>, run: seq<Event>, c: ConnId)
    requires IsRun(cfg, Initial(pool), run)
    requires var s := Run(cfg, Initial(pool), run);
      c in s.conns && (s.conns[c].phase == Registering || s.conns[c].phase == Serving)
    ensures var s := Run(cfg, Initial(pool), run);
      var x := s.conns[c];
      && x.vip.Some? && x.reply == Some(S2CAuth(x.vip.value, x.auth.domain, x.infos))
      && (forall item: Meta :: item in Requested(cfg, c, x, x.auth.forward) <==> item.owner == c && Routed(s.manager, item))
      && |x.infos| == |Requested(cfg, c, x, x.auth.forward)|
  {
    var s := Run(cfg, Initial(pool), run);
    var x := s.conns[c];
    ReachableInv(cfg, pool, run);
    RunProgress(cfg, Initial(pool), run);
    assert Progress(cfg, c, x) && StackOk(s.inuse, x);
    DelsCount(x.deferred);
    forall item: Meta
      ensures item in HeldItems(x.deferred) <==> item.owner == c && Routed(s.manager, item)
    {
      if item in HeldItems(x.deferred) {
        assert Backed(s, c, DelProxy(item));
      }
    }
  }

  /**
   The routes of a client that has its reply, written out: for each of its ports, from all addresses at the
   public port to the client's own address at the local one, under the client's domain.
   */
  lemma RoutesAsRequested(cfg: Config, pool: set<string>, run: seq<Event>, c: ConnId, item: Meta)
    requires IsRun(cfg, Initial(pool), run)
    requires var s := Run(cfg, Initial(pool), run);
      c in s.conns && (s.conns[c].phase == Registering || s.conns[c].phase == Serving)
    ensures var s := Run(cfg, Initial(pool), run);
      var x := s.conns[c];
      && x.vip.Some?
      && (item.owner == c && Routed(s.manager, item) <==>
            exists f: Forward, port: int :: f in x.auth.forward && port in f.ports &&
              item == Meta(c, f.protocol, "0.0.0.0:" + Decimal(port), x.vip.value + ":" + f.ports[port], x.auth.domain))
  {
    ReplyIsComplete(cfg, pool, run, c);
    var x := Run(cfg, Initial(pool), run).conns[c];
    hide Run, IsRun, Routed, Decimal;
    assert item in Requested(cfg, c, x, x.auth.forward) <==>
      exists f: Forward, port: int :: f in x.auth.forward && port in f.ports && item == Item(cfg, c, x, f, port);
  }

  // ---------- who is let in ----------

  lemma {:induction false} RunConcat(cfg: Config, s: State, run: seq<Event>, more: seq<Event>)
    ensures IsRun(cfg, s, run + more) <==> IsRun(cfg, s, run) && IsRun(cfg, Run(cfg, s, run), more)
    ensures IsRun(cfg, s, run + more) ==> Run(cfg, s, run + more) == Run(cfg, Run(cfg, s, run), more)
    decreases |run|
  {
    hide Enabled, Apply;
    if run == [] {
      assert run + more == more;
    } else {
      assert (run + more)[1..] == run[1..] + more;
      if Enabled(cfg, s, run[0].conn, run[0].action) {
        RunConcat(cfg, Apply(cfg, s, run[0].conn, run[0].action), run[1..], more);
      }
    }
  }

  lemma RunLast(cfg: Config, s: State, run: seq<Event>)
    requires run != [] && IsRun(cfg, s, run)
    ensures var init, e := run[..|run| - 1], run[|run| - 1];
      && IsRun(cfg, s, init) && Enabled(cfg, Run(cfg, s, init), e.conn, e.action)
      && Run(cfg, s, run) == Apply(cfg, Run(cfg, s, init), e.conn, e.action)
  {
    var init, e := run[..|run| - 1], run[|run| - 1];
    assert run == init + [e] && [e][1..] == [];
    RunConcat(cfg, s, init, [e]);
    hide Enabled, Apply;
  }

  /**
   In the run the client of x has sent a request with the server's key, and x records that request, under
   the client's domain or, where it has none, under a name made from the clock.
   */
  ghost predicate SentKey(cfg: Config, run: seq<Event>, c: ConnId, x: Conn) {
    exists k :: 0 <= k < |run| && run[k].conn == c && Records(cfg, run[k].action, x)
  }

  predicate Records(cfg: Config, a: Action, x: Conn) {
    && a.Authorize? && a.auth.key == cfg.authKey && x.auth.forward == a.auth.forward
    && x.auth.domain == if a.auth.domain == "" then RandomDomain(a.now) + "." + cfg.domain else a.auth.domain
  }

  // Nothing is held that would have to be given back, and no address.
  ghost predicate Clean(x: Conn) {
    x.vip == None && forall d :: d in x.deferred ==> d == CloseConn
  }

  predicate LetIn(p: Phase) {
    p != Authorizing && p != Unwinding && p != Finished
  }

  ghost predicate AuthOk(cfg: Config, run: seq<Event>, c: ConnId, x: Conn) {
    && (x.phase == Authorizing ==> Clean(x))
    && (LetIn(x.phase) ==> SentKey(cfg, run, c, x))
    && (Clean(x) || SentKey(cfg, run, c, x))
  }

  ghost predicate AllAuthOk(cfg: Config, run: seq<Event>, s: State) {
    forall c :: c in s.conns ==> AuthOk(cfg, run, c, s.conns[c])
  }

  lemma SentStays(cfg: Config, run: seq<Event>, e: Event, c: ConnId, x: Conn, y: Conn)
    requires SentKey(cfg, run, c, x) && y.auth == x.auth
    ensures SentKey(cfg, run + [e], c, y)
  {
    var k :| 0 <= k < |run| && run[k].conn == c && Records(cfg, run[k].action, x);
    assert (run + [e])[k] == run[k];
  }

  // What an action of c does to c as far as its address, its stack and its request go.
  lemma StepOf(cfg: Config, s: State, c: ConnId, a: Action)
    requires Enabled(cfg, s, c, a)
    ensures var t := Apply(cfg, s, c, a);
      && c in t.conns && (forall d :: d in t.conns && d != c ==> d in s.conns && t.conns[d] == s.conns[d])
      && (a == Accept ==> Clean(t.conns[c]) && t.conns[c].phase == Authorizing)
      && (a != Accept ==> c in s.conns && (!a.Authorize? ==> t.conns[c].auth == s.conns[c].auth))
  {
    hide Deleted, Admits, Added, Item, RandomDomain;
  }

  lemma AuthorizeOf(cfg: Config, s: State, c: ConnId, a: Action)
    requires Enabled(cfg, s, c, a) && a.Authorize?
    ensures var x, y := s.conns[c], Apply(cfg, s, c, a).conns[c];
      && x.phase == Authorizing && y.deferred == x.deferred && y.vip == x.vip
      && if a.auth.key == cfg.authKey then y.phase == Selecting && Records(cfg, a, y)
         else y.phase == Unwinding && y.auth == x.auth
  {
    hide RandomDomain;
  }

  lemma PhaseOf(cfg: Config, s: State, c: ConnId, a: Action)
    requires Enabled(cfg, s, c, a) && a != Accept && !a.Authorize?
    ensures var x, y := s.conns[c], Apply(cfg, s, c, a).conns[c];
      && y.phase != Authorizing && (LetIn(y.phase) ==> LetIn(x.phase))
      && (!LetIn(x.phase) ==> !LetIn(y.phase))
      && (!LetIn(x.phase) ==> y.vip == x.vip && y.deferred <= x.deferred)
  {
    hide Deleted, Admits, Added, Item, RandomDomain;
  }

  lemma StaysClean(x: Conn, y: Conn)
    requires y.vip == x.vip && y.deferred <= x.deferred
    ensures Clean(x) ==> Clean(y)
  {
    assert forall d :: d in y.deferred ==> d in x.deferred;
  }

  lemma StepAuthOk(cfg: Config, run: seq<Event>, s: State, c: ConnId, a: Action)
    requires AllAuthOk(cfg, run, s) && Enabled(cfg, s, c, a)
    ensures AllAuthOk(cfg, run + [Event(c, a)], Apply(cfg, s, c, a))
  {
    var e, t := Event(c, a), Apply(cfg, s, c, a);
    StepOf(cfg, s, c, a);
    if a.Authorize? {
      AuthorizeOf(cfg, s, c, a);
      assert (run + [e])[|run|] == e;
    } else if a != Accept {
      PhaseOf(cfg, s, c, a);
      if !LetIn(s.conns[c].phase) {
        StaysClean(s.conns[c], t.conns[c]);
      }
    }
    hide Apply, Enabled, LetIn, Records;
    forall d | d in t.conns
      ensures AuthOk(cfg, run + [e], d, t.conns[d])
    {
      if d in s.conns {
        assert AuthOk(cfg, run, d, s.conns[d]);
        if SentKey(cfg, run, d, s.conns[d]) && t.conns[d].auth == s.conns[d].auth {
          SentStays(cfg, run, e, d, s.conns[d], t.conns[d]);
        }
      }
    }
  }

  lemma {:induction false} RunAuthOk(cfg: Config, pool: set<string>, run: seq<Event>)
    requires IsRun(cfg, Initial(pool), run)
    ensures AllAuthOk(cfg, run, Run(cfg, Initial(pool), run))
    decreases |run|
  {
    if run != [] {
      var init, e := run[..|run| - 1], run[|run| - 1];
      RunLast(cfg, Initial(pool), run);
      RunAuthOk(cfg, pool, init);
      assert run == init + [Event(e.conn, e.action)];
      hide AllAuthOk, Run, IsRun, Apply, Enabled;
      StepAuthOk(cfg, init, Run(cfg, Initial(pool), init), e.conn, e.action);
    }
  }

  /**
   Only clients that have sent the server's key get past the door: who is between authorization and
   leaving, has an address, a route or a session, has sent it.
   */
  lemma AuthorizedOnly(cfg: Config, pool: set<string>, run: seq<Event>)
    requires IsRun(cfg, Initial(pool), run)
    ensures var s := Run(cfg, Initial(pool), run);
      && (forall c :: c in s.conns && (s.conns[c].vip.Some? || LetIn(s.conns[c].phase)) ==> SentKey(cfg, run, c, s.conns[c]))
      && (forall k :: k in s.manager.routes ==>
            var c := s.manager.routes[k].owner; c in s.conns && SentKey(cfg, run, c, s.conns[c]))
      && (forall v :: v in s.sessions ==> var c := s.sessions[v]; c in s.conns && SentKey(cfg, run, c, s.conns[c]))
  {
    ReachableInv(cfg, pool, run);
    RunAuthOk(cfg, pool, run);
    hide Run, IsRun, Consistent, StacksOk, VipsDistinct, AllBacked, SentKey, LetIn;
  }

  // Whom the server has turned away.
  ghost predicate TurnedAway(s: State, c: ConnId) {
    c in s.conns && (s.conns[c].phase == Unwinding || s.conns[c].phase == Finished) && Clean(s.conns[c])
  }

  lemma StepTurnedAway(cfg: Config, s: State, c: ConnId, d: ConnId, a: Action)
    requires TurnedAway(s, c) && Enabled(cfg, s, d, a)
    ensures TurnedAway(Apply(cfg, s, d, a), c)
  {
    StepOf(cfg, s, d, a);
    if d == c {
      PhaseOf(cfg, s, c, a);
      StaysClean(s.conns[c], Apply(cfg, s, c, a).conns[c]);
    }
    hide Apply, Clean;
  }

  lemma {:induction false} RunTurnedAway(cfg: Config, s: State, c: ConnId, run: seq<Event>)
    requires TurnedAway(s, c) && IsRun(cfg, s, run)
    ensures TurnedAway(Run(cfg, s, run), c)
    decreases |run|
  {
    if run != [] {
      hide TurnedAway, Enabled, Apply;
      StepTurnedAway(cfg, s, c, run[0].conn, run[0].action);
      RunTurnedAway(cfg, Apply(cfg, s, run[0].conn, run[0].action), c, run[1..]);
    }
  }

  /**
   The key decides: with it the client goes on to an address; with another it only leaves, and never, however
   the run goes on, has an address, a route or a session.
   */
  lemma KeyDecides(cfg: Config, pool: set<string>, run: seq<Event>, c: ConnId, auth: C2SAuth, now: int, more: seq<Event>)
    requires IsRun(cfg, Initial(pool), run + [Event(c, Authorize(auth, now))] + more)
    ensures IsRun(cfg, Initial(pool), run + [Event(c, Authorize(auth, now))])
    ensures var t := Run(cfg, Initial(pool), run + [Event(c, Authorize(auth, now))]);
      c in t.conns && t.conns[c].phase == if auth.key == cfg.authKey then Selecting else Unwinding
    ensures auth.key != cfg.authKey ==>
      var s := Run(cfg, Initial(pool), run + [Event(c, Authorize(auth, now))] + more);
      && c in s.conns && (s.conns[c].phase == Unwinding || s.conns[c].phase == Finished) && s.conns[c].vip == None
      && (forall k :: k in s.manager.routes ==> s.manager.routes[k].owner != c)
      && (forall v :: v in s.sessions ==> s.sessions[v] != c)
  {
    var start, e := Initial(pool), Event(c, Authorize(auth, now));
    var all := run + [e] + more;
    RunConcat(cfg, start, run + [e], more);
    RunLast(cfg, start, run + [e]);
    assert (run + [e])[..|run|] == run;
    RunAuthOk(cfg, pool, run);
    AuthorizeOf(cfg, Run(cfg, start, run), c, e.action);
    StepOf(cfg, Run(cfg, start, run), c, e.action);
    ReachableInv(cfg, pool, all);
    assert AuthOk(cfg, run, c, Run(cfg, start, run).conns[c]);
    hide Run, IsRun, Apply, Enabled, Consistent, StacksOk, VipsDistinct, AllBacked, SentKey, LetIn;
    if auth.key != cfg.authKey {
      RunTurnedAway(cfg, Run(cfg, start, run + [e]), c, more);
    }
  }

  // ---------- the entries of the reply ----------

  // The items of the deferred DelProxy calls, in order.
  function ItemsOf(deferred: seq<Deferred>): seq<Meta>
    decreases |deferred|
  {
    if deferred == [] then []
    else
      var d := deferred[|deferred| - 1];
      ItemsOf(deferred[..|deferred| - 1]) + if d.DelProxy? then [d.item] else []
  }

  // What the plugins answered to the proxies of c, in order.
  function Answers(run: seq<Event>, c: ConnId): seq<ProxyTuple>
    decreases |run|
  {
    if run == [] then []
    else
      var e := run[|run| - 1];
      Answers(run[..|run| - 1], c)
      + if e.conn == c && e.action.AddNext? && e.action.answer.Some? then [e.action.answer.value] else []
  }

  ghost predicate InfosOf(infos: seq<ProxyTuple>, items: seq<Meta>, answers: seq<ProxyTuple>) {
    && |infos| == |items| == |answers|
    && forall k :: 0 <= k < |infos| ==> infos[k] == ProxyTuple(items[k].protocol, answers[k].fromPort, answers[k].toPort)
  }

  ghost predicate InfosOk(run: seq<Event>, c: ConnId, x: Conn) {
    x.phase != Unwinding && x.phase != Finished ==> InfosOf(x.infos, ItemsOf(x.deferred), Answers(run, c))
  }

  ghost predicate AllInfosOk(run: seq<Event>, s: State) {
    && (forall c :: c in s.conns ==> InfosOk(run, c, s.conns[c]))
    && (forall c :: c !in s.conns ==> Answers(run, c) == [])
  }

  lemma ItemsMore(deferred: seq<Deferred>, d: Deferred)
    ensures ItemsOf(deferred + [d]) == ItemsOf(deferred) + if d.DelProxy? then [d.item] else []
  {
    assert (deferred + [d])[..|deferred|] == deferred;
  }

  lemma AnswersMore(run: seq<Event>, e: Event, c: ConnId)
    ensures Answers(run + [e], c)
         == Answers(run, c) + if e.conn == c && e.action.AddNext? && e.action.answer.Some? then [e.action.answer.value] else []
  {
    assert (run + [e])[..|run|] == run;
  }

  // What an action of c does to the infos and the stack of c, unless c is leaving then.
  lemma InfosStep(cfg: Config, s: State, c: ConnId, a: Action)
    requires Enabled(cfg, s, c, a) && a != Accept && a != Unwind
    ensures var x, y := s.conns[c], Apply(cfg, s, c, a).conns[c];
      y.phase == Unwinding
      || (y.infos == x.infos && y.deferred == x.deferred && !a.AddNext? && x.phase != Unwinding && x.phase != Finished)
      || (a == Register && x.vip.Some? && y.infos == x.infos && x.phase != Unwinding && x.phase != Finished
          && y.deferred == x.deferred + [DeleteSession(x.vip.value)])
      || (a.AddNext? && a.answer.Some? && x.phase != Unwinding && x.phase != Finished
          && exists item: Meta :: y.deferred == x.deferred + [DelProxy(item)]
               && y.infos == x.infos + [ProxyTuple(item.protocol, a.answer.value.fromPort, a.answer.value.toPort)])
  {
    hide Admits, Added, Requested, RandomDomain;
    if a.AddNext? {
      var item := Item(cfg, c, s.conns[c], s.conns[c].phase.todo[0], a.port);
      assert item.protocol == s.conns[c].phase.todo[0].protocol;
    }
  }

  lemma InfosMore(infos: seq<ProxyTuple>, items: seq<Meta>, answers: seq<ProxyTuple>, item: Meta, answer: ProxyTuple)
    requires InfosOf(infos, items, answers)
    ensures InfosOf(infos + [ProxyTuple(item.protocol, answer.fromPort, answer.toPort)], items + [item], answers + [answer])
  {
  }

  lemma InfosAtAccept(cfg: Config, run: seq<Event>, s: State, c: ConnId)
    requires Enabled(cfg, s, c, Accept) && Answers(run, c) == []
    ensures InfosOk(run, c, Apply(cfg, s, c, Accept).conns[c])
  {
    ItemsMore([], CloseConn);
    assert [] + [CloseConn] == [CloseConn];
  }

  lemma InfosAfterAdd(run: seq<Event>, e: Event, c: ConnId, x: Conn, y: Conn, item: Meta)
    requires InfosOf(x.infos, ItemsOf(x.deferred), Answers(run, c))
    requires e.conn == c && e.action.AddNext? && e.action.answer.Some?
    requires y.deferred == x.deferred + [DelProxy(item)]
    requires var t := e.action.answer.value; y.infos == x.infos + [ProxyTuple(item.protocol, t.fromPort, t.toPort)]
    ensures InfosOf(y.infos, ItemsOf(y.deferred), Answers(run + [e], c))
  {
    hide ItemsOf, Answers, InfosOf;
    ItemsMore(x.deferred, DelProxy(item));
    AnswersMore(run, e, c);
    InfosMore(x.infos, ItemsOf(x.deferred), Answers(run, c), item, e.action.answer.value);
  }

  lemma InfosAfterOther(run: seq<Event>, e: Event, c: ConnId, x: Conn, y: Conn)
    requires InfosOf(x.infos, ItemsOf(x.deferred), Answers(run, c)) && !e.action.AddNext? && y.infos == x.infos
    requires y.deferred == x.deferred || (x.vip.Some? && y.deferred == x.deferred + [DeleteSession(x.vip.value)])
    ensures InfosOf(y.infos, ItemsOf(y.deferred), Answers(run + [e], c))
  {
    hide ItemsOf, Answers, InfosOf;
    AnswersMore(run, e, c);
    assert Answers(run, c) + [] == Answers(run, c) && ItemsOf(x.deferred) + [] == ItemsOf(x.deferred);
    if y.deferred != x.deferred {
      ItemsMore(x.deferred, DeleteSession(x.vip.value));
    }
  }

  lemma StepInfosOwn(cfg: Config, run: seq<Event>, s: State, c: ConnId, a: Action)
    requires AllInfosOk(run, s) && Enabled(cfg, s, c, a)
    ensures InfosOk(run + [Event(c, a)], c, Apply(cfg, s, c, a).conns[c])
  {
    hide ItemsOf, Answers, InfosOf;
    var y := Apply(cfg, s, c, a).conns[c];
    if a == Accept {
      AnswersMore(run, Event(c, a), c);
      InfosAtAccept(cfg, run + [Event(c, a)], s, c);
    } else if a == Unwind {
      UnwindIsUnwound(cfg, s, c);
    } else {
      var x := s.conns[c];
      InfosStep(cfg, s, c, a);
      assert InfosOk(run, c, x);
      hide Apply, Enabled;
      if y.phase != Unwinding {
        if a.AddNext? {
          var item: Meta :| y.deferred == x.deferred + [DelProxy(item)]
            && y.infos == x.infos + [ProxyTuple(item.protocol, a.answer.value.fromPort, a.answer.value.toPort)];
          InfosAfterAdd(run, Event(c, a), c, x, y, item);
        } else {
          InfosAfterOther(run, Event(c, a), c, x, y);
        }
      }
    }
  }

  lemma StepInfos(cfg: Config, run: seq<Event>, s: State, c: ConnId, a: Action)
    requires AllInfosOk(run, s) && Enabled(cfg, s, c, a)
    ensures AllInfosOk(run + [Event(c, a)], Apply(cfg, s, c, a))
  {
    StepInfosOwn(cfg, run, s, c, a);
    StepOf(cfg, s, c, a);
    StepKeepsConns(cfg, s, c, a);
    hide Apply, Enabled, ItemsOf, Answers, InfosOf;
    forall d: ConnId
      ensures d != c ==> Answers(run + [Event(c, a)], d) == Answers(run, d)
    {
      AnswersMore(run, Event(c, a), d);
    }
  }

  lemma StepKeepsConns(cfg: Config, s: State, c: ConnId, a: Action)
    requires Enabled(cfg, s, c, a)
    ensures Apply(cfg, s, c, a).conns.Keys == s.conns.Keys + {c}
  {
    hide Deleted, Admits, Added, Item, RandomDomain;
  }

  lemma {:induction false} RunInfos(cfg: Config, pool: set<string>, run: seq<Event>)
    requires IsRun(cfg, Initial(pool), run)
    ensures AllInfosOk(run, Run(cfg, Initial(pool), run))
    decreases |run|
  {
    if run != [] {
      var init, e := run[..|run| - 1], run[|run| - 1];
      RunLast(cfg, Initial(pool), run);
      RunInfos(cfg, pool, init);
      assert run == init + [Event(e.conn, e.action)];
      hide AllInfosOk, Run, IsRun, Apply, Enabled;
      StepInfos(cfg, init, Run(cfg, Initial(pool), init), e.conn, e.action);
    }
  }

  /**
   The entries of the reply belong to the routes in their order: each has the protocol of its route and the
   two ports that the plugin answered when the route was made.
   */
  lemma ReplyEntries(cfg: Config, pool: set<string>, run: seq<Event>, c: ConnId)
    requires IsRun(cfg, Initial(pool), run)
    requires var s := Run(cfg, Initial(pool), run);
      c in s.conns && (s.conns[c].phase == Registering || s.conns[c].phase == Serving)
    ensures var x := Run(cfg, Initial(pool), run).conns[c];
      x.reply.Some? && InfosOf(x.reply.value.proxyInfos, ItemsOf(x.deferred), Answers(run, c))
  {
    ReplyIsComplete(cfg, pool, run, c);
    RunInfos(cfg, pool, run);
    assert InfosOk(run, c, Run(cfg, Initial(pool), run).conns[c]);
    hide Run, IsRun, InfosOf, ItemsOf, Answers, Requested;
  }

  // ---------- going on and leaving ----------

  /** In every reachable state a connection that has not finished has something it can do. */
  lemma NeverStuck(cfg: Config, pool: set<string>, run: seq<Event>, c: ConnId)
    requires IsRun(cfg, Initial(pool), run)
    requires var s := Run(cfg, Initial(pool), run); c in s.conns && s.conns[c].phase != Finished
    ensures exists a: Action :: Enabled(cfg, Run(cfg, Initial(pool), run), c, a)
  {
    ReachableInv(cfg, pool, run);
    RunProgress(cfg, Initial(pool), run);
    var s := Run(cfg, Initial(pool), run);
    assert Progress(cfg, c, s.conns[c]) && StackOk(s.inuse, s.conns[c]);
    hide IsRun, Run, Inv, AllProgress;
    HasStep(cfg, s, c);
  }

  lemma SomePort(ports: map<int, string>) returns (port: int)
    requires ports != map[]
    ensures port in ports
  {
    assert (forall p :: p !in ports) ==> ports == map[];
    port :| port in ports;
  }

  lemma HasStep(cfg: Config, s: State, c: ConnId)
    requires c in s.conns && s.conns[c].phase != Finished
    requires Progress(cfg, c, s.conns[c]) && StackOk(s.inuse, s.conns[c])
    ensures exists a: Action :: Enabled(cfg, s, c, a)
  {
    hide Requested, HeldItems, Dels, Distinct;
    match s.conns[c].phase
    case Authorizing => assert Enabled(cfg, s, c, Fail);
    case Selecting =>
      if s.free == {} {
        assert Enabled(cfg, s, c, SelectFails);
      } else {
        var vip :| vip in s.free;
        assert Enabled(cfg, s, c, Select(vip));
      }
    case Resolving => assert Enabled(cfg, s, c, Resolve);
    case Adding(todo) =>
      if todo == [] {
        assert Enabled(cfg, s, c, AddedAll);
      } else if todo[0].ports == map[] {
        assert Enabled(cfg, s, c, NextForward);
      } else {
        var port := SomePort(todo[0].ports);
        assert Enabled(cfg, s, c, AddNext(port, None));
      }
    case Replying => assert Enabled(cfg, s, c, Reply);
    case Registering => assert Enabled(cfg, s, c, Register);
    case Serving => assert Enabled(cfg, s, c, HangUp);
    case Unwinding => assert Enabled(cfg, s, c, Unwind);
  }

  /**
   From every return, also the early ones and that of a client hanging up, the connection runs its deferred
   calls: the routes and the session it has go, and nothing else does.
   */
  lemma ReturnsLeave(cfg: Config, s: State, c: ConnId, a: Action)
    requires Inv(cfg, s) && Enabled(cfg, s, c, a)
    requires a == Fail || a == HangUp || a == SelectFails || (a.AddNext? && a.answer == None)
    ensures var t := Apply(cfg, s, c, a);
      && t == s.(conns := s.conns[c := s.conns[c].(phase := Unwinding)])
      && Gone(t, Leave(cfg, t, c), c)
  {
    var t := Apply(cfg, s, c, a);
    StepKeeps(cfg, s, c, a);
    ReturnIs(cfg, s, c, a);
    hide Inv, Apply, Enabled, Gone, Leave;
    LeaveRemovesOwn(cfg, t, c);
  }

  lemma ReturnIs(cfg: Config, s: State, c: ConnId, a: Action)
    requires Enabled(cfg, s, c, a)
    requires a == Fail || a == HangUp || a == SelectFails || (a.AddNext? && a.answer == None)
    ensures Apply(cfg, s, c, a) == s.(conns := s.conns[c := s.conns[c].(phase := Unwinding)])
  {
  }
}
