/**
 The plugin manager of `opennotrd/plugin/plugin.go`: the table of routes, and the calls it makes to the
 plugins. What a plugin answers to `RunProxy` is a parameter.
 */
module Plugin {
  import opened Basics

  // PluginMeta. The original stores pointers: `owner`, the connection that made the item, tells two
  // items with the same contents apart.
  datatype Meta = Meta(owner: nat, protocol: string, from: string, to: string, domain: string)

  datatype ProxyTuple = ProxyTuple(protocol: string, fromPort: string, toPort: string)

  // ---------- identify ----------

  function Identify(item: Meta): string {
    item.protocol + ":" + item.from + ":" + item.domain
  }

  lemma ColonAt(a: string, x: string)
    requires ':' !in a
    ensures (a + ":" + x)[|a|] == ':' && forall k :: 0 <= k < |a| ==> (a + ":" + x)[k] != ':'
  {
  }

  lemma FirstColon(a: string, b: string, x: string, y: string)
    requires ':' !in a && ':' !in b
    ensures a + ":" + x == b + ":" + y <==> a == b && x == y
  {
    var s, t := a + ":" + x, b + ":" + y;
    ColonAt(a, x);
    ColonAt(b, y);
    if s == t {
      assert s[..|a|] == a && t[..|a|] == b;
      assert s[|a| + 1..] == x && t[|a| + 1..] == y;
    }
  }

  // What server.go puts in From.
  function Listen(port: int): string {
    "0.0.0.0:" + Decimal(port)
  }

  // The key of a request: the address and the owner are no part of it.
  function Key(protocol: string, port: int, domain: string): string {
    Identify(Meta(0, protocol, Listen(port), "", domain))
  }

  // A protocol name followed by the address, and by a port: the start of its keys.
  function Opening(protocol: string): string {
    protocol + ":" + "0.0.0.0" + ":"
  }

  function OpeningTo(protocol: string, port: int): string {
    Opening(protocol) + Decimal(port) + ":"
  }

  /** The name q goes on where p, the address and some port leave off. */
  ghost predicate Extends(p: string, q: string) {
    exists port: int :: OpeningTo(p, port) <= Opening(q)
  }

  lemma KeyOpens(protocol: string, port: int, domain: string)
    ensures Key(protocol, port, domain) == OpeningTo(protocol, port) + domain
    ensures Key(protocol, port, domain) == Opening(protocol) + (Decimal(port) + ":" + domain)
  {
    assert protocol + ":" + Listen(port) == Opening(protocol) + Decimal(port);
  }

  // Names as long as each other start the same key only if they are the same.
  lemma SameOpening(p: string, q: string, x: string, y: string)
    requires |p| == |q| && Opening(p) + x == Opening(q) + y
    ensures p == q && x == y
  {
    var s, t := Opening(p) + x, Opening(q) + y;
    assert s[..|p|] == p && t[..|q|] == q;
    assert s[|p| + 9..] == x && t[|q| + 9..] == y;
  }

  // In one key, the shorter name with its port ends before the longer name's address does.
  lemma CollisionExtends(p: string, a: int, d: string, q: string, b: int, e: string)
    requires |p| < |q| && Key(p, a, d) == Key(q, b, e)
    ensures OpeningTo(p, a) <= Opening(q)
  {
    var s := Key(p, a, d);
    KeyOpens(p, a, d);
    KeyOpens(q, b, e);
    PortPlain(p, a);
    assert OpeningTo(p, a) == s[..|OpeningTo(p, a)|] && Opening(q) == s[..|Opening(q)|];
    assert s[|Opening(q)| - 1] == Opening(q)[|Opening(q)| - 1] == ':';
    assert forall k :: |Opening(p)| <= k < |OpeningTo(p, a)| - 1 ==> s[k] != ':';
  }

  lemma PortPlain(p: string, a: int)
    ensures forall k :: |Opening(p)| <= k < |OpeningTo(p, a)| - 1 ==> OpeningTo(p, a)[k] != ':'
  {
    DecimalPlain(a, ':');
  }

  // Where q extends p, some key of p is also one of q.
  lemma ExtensionCollides(p: string, q: string) returns (a: int, d: string)
    requires Extends(p, q)
    ensures Key(p, a, d) == Key(q, 0, "") && |p| < |q|
  {
    a :| OpeningTo(p, a) <= Opening(q);
    assert |p| < |q|;
    KeyOpens(q, 0, "");
    var rest := Decimal(0) + ":" + "";
    d := Opening(q)[|OpeningTo(p, a)|..] + rest;
    KeyOpens(p, a, d);
    hide Opening, OpeningTo, Key, Decimal;
    assert Opening(q) == OpeningTo(p, a) + Opening(q)[|OpeningTo(p, a)|..];
    ConcatAssoc(OpeningTo(p, a), Opening(q)[|OpeningTo(p, a)|..], rest);
  }

  lemma KeysOfOneProtocol(p: string, a: int, d: string, b: int, e: string)
    requires Key(p, a, d) == Key(p, b, e)
    ensures a == b && d == e
  {
    KeyOpens(p, a, d);
    KeyOpens(p, b, e);
    SameOpening(p, p, Decimal(a) + ":" + d, Decimal(b) + ":" + e);
    DecimalPlain(a, ':');
    DecimalPlain(b, ':');
    FirstColon(Decimal(a), Decimal(b), d, e);
    DecimalExact(a, b);
  }

  ghost predicate Collide(p: string, q: string) {
    exists a, b, d, e :: Key(p, a, d) == Key(q, b, e)
  }

  /** Two protocols have a key in common, for some ports and domains, exactly when one extends the other. */
  lemma CollideExact(p: string, q: string)
    requires p != q
    ensures Collide(p, q) <==> Extends(p, q) || Extends(q, p)
  {
    if Collide(p, q) {
      var a, b, d, e :| Key(p, a, d) == Key(q, b, e);
      if |p| < |q| {
        CollisionExtends(p, a, d, q, b, e);
      } else if |q| < |p| {
        CollisionExtends(q, b, e, p, a, d);
      } else {
        KeyOpens(p, a, d);
        KeyOpens(q, b, e);
        SameOpening(p, q, Decimal(a) + ":" + d, Decimal(b) + ":" + e);
      }
    }
    if Extends(p, q) {
      var a, d := ExtensionCollides(p, q);
    }
    if Extends(q, p) {
      var a, d := ExtensionCollides(q, p);
      assert Key(p, 0, "") == Key(q, a, d);
    }
  }

  // What the keys of the requests for some protocols are for.
  ghost predicate Distinguish(protocols: set<string>) {
    forall p, q, a, b, d, e :: p in protocols && q in protocols && Key(p, a, d) == Key(q, b, e) ==>
      p == q && a == b && d == e
  }

  /** The keys of the registered protocols tell all requests apart exactly when no name extends another. */
  lemma IdentifyExact(protocols: set<string>)
    ensures Distinguish(protocols) <==> forall p, q :: p in protocols && q in protocols ==> !Extends(p, q)
  {
    if forall p, q :: p in protocols && q in protocols ==> !Extends(p, q) {
      forall p, q, a, b, d, e | p in protocols && q in protocols && Key(p, a, d) == Key(q, b, e)
        ensures p == q && a == b && d == e
      {
        if p == q {
          KeysOfOneProtocol(p, a, d, b, e);
        } else {
          CollideExact(p, q);
        }
      }
    }
    forall p, q | p in protocols && q in protocols && Extends(p, q)
      ensures !Distinguish(protocols)
    {
      var a, d := ExtensionCollides(p, q);
    }
  }

  lemma ExtensionHasColon(p: string, q: string)
    requires Extends(p, q)
    ensures ':' in q
  {
    var a :| OpeningTo(p, a) <= Opening(q);
    assert Opening(q)[|p|] == OpeningTo(p, a)[|p|] == ':';
    assert Opening(q)[|p|] == q[|p|];
  }

  /** Names without a ':' never extend one another, so their keys tell requests apart. */
  lemma PlainNamesDistinguish(protocols: set<string>)
    requires forall p :: p in protocols ==> ':' !in p
    ensures Distinguish(protocols)
  {
    forall p, q | p in protocols && q in protocols
      ensures !Extends(p, q)
    {
      if Extends(p, q) {
        ExtensionHasColon(p, q);
      }
    }
    IdentifyExact(protocols);
  }

  /** Every protocol name is extended by some other, with which it has a key in common. */
  lemma IdentifyAmbiguous(p: string, a: int)
    ensures var q := p + ":" + "0.0.0.0" + ":" + Decimal(a);
      Extends(p, q) && Key(p, a, "0.0.0.0" + ":" + Decimal(0) + ":") == Key(q, 0, "")
  {
    var q := Opening(p) + Decimal(a);
    var tail := "0.0.0.0" + ":";
    assert Opening(q) == OpeningTo(p, a) + tail;
    KeyOpens(q, 0, "");
    KeyOpens(p, a, tail + Decimal(0) + ":");
    hide Opening, OpeningTo, Key, Decimal;
    assert Opening(q) + (Decimal(0) + ":" + "") == OpeningTo(p, a) + (tail + Decimal(0) + ":");
  }

  // ---------- the calls to plugins ----------

  /** What plugins were told: a proxy that `RunProxy` started, and a call of `StopProxy`. */
  datatype PluginCall = Started(item: Meta) | Stopped(item: Meta)

  /**
   The items started and not stopped after some calls, by key; None once one was started under the key of
   another, or one was stopped that had not been started.
   */
  ghost function Replay(calls: seq<PluginCall>): Option<map<string, Meta>>
    decreases |calls|
  {
    if calls == [] then Some(map[])
    else
      var before := Replay(calls[..|calls| - 1]);
      if before.None? then None
      else
        match calls[|calls| - 1]
        case Started(item) =>
          if Identify(item) in before.value then None else Some(before.value[Identify(item) := item])
        case Stopped(item) =>
          if Identify(item) in before.value && before.value[Identify(item)] == item
          then Some(before.value - {Identify(item)})
          else None
  }

  lemma ReplayNext(calls: seq<PluginCall>, call: PluginCall)
    requires Replay(calls).Some?
    ensures var running, key := Replay(calls).value, Identify(call.item);
      Replay(calls + [call])
      == match call
         case Started(item) => if key in running then None else Some(running[key := item])
         case Stopped(item) => if key in running && running[key] == item then Some(running - {key}) else None
  {
    assert (calls + [call])[..|calls|] == calls;
  }

  /** What the manager holds: the routes, and the record of its calls to the plugins. */
  datatype Manager = Manager(routes: map<string, Meta>, calls: seq<PluginCall>)

  // The routes are exactly the items started and not stopped, each under its own key.
  ghost predicate Consistent(m: Manager, plugins: set<string>) {
    && Replay(m.calls) == Some(m.routes)
    && forall k :: k in m.routes ==> Identify(m.routes[k]) == k && m.routes[k].protocol in plugins
  }

  predicate Admits(m: Manager, plugins: set<string>, item: Meta) {
    Identify(item) !in m.routes && item.protocol in plugins
  }

  function Added(m: Manager, item: Meta): Manager {
    Manager(m.routes[Identify(item) := item], m.calls + [Started(item)])
  }

  function Deleted(m: Manager, plugins: set<string>, item: Meta): Manager {
    Manager(m.routes - {Identify(item)},
            if item.protocol in plugins then m.calls + [Stopped(item)] else m.calls)
  }

  lemma AddedConsistent(m: Manager, plugins: set<string>, item: Meta)
    requires Consistent(m, plugins) && Admits(m, plugins, item)
    ensures Consistent(Added(m, item), plugins)
  {
    ReplayNext(m.calls, Started(item));
  }

  predicate Routed(m: Manager, item: Meta) {
    Identify(item) in m.routes && m.routes[Identify(item)] == item
  }

  /**
   `DelProxy` looks at nothing but the key and the protocol: routes and calls stay paired exactly
   when it is called for an item that is routed, or for one that has neither a route nor a plugin.
   */
  lemma DeletedConsistent(m: Manager, plugins: set<string>, item: Meta)
    requires Consistent(m, plugins)
    ensures Consistent(Deleted(m, plugins, item), plugins)
       <==> Routed(m, item) || (Identify(item) !in m.routes && item.protocol !in plugins)
  {
    var key := Identify(item);
    if item.protocol in plugins {
      ReplayNext(m.calls, Stopped(item));
    } else if key !in m.routes {
      assert m.routes - {key} == m.routes;
    } else {
      assert key !in m.routes - {key};
    }
  }

  /** Deleting an item right after adding it gives back the routes there were. */
  lemma DeleteUndoesAdd(m: Manager, plugins: set<string>, item: Meta)
    requires Admits(m, plugins, item)
    ensures Deleted(Added(m, item), plugins, item).routes == m.routes
    ensures Deleted(Added(m, item), plugins, item).calls == m.calls + [Started(item), Stopped(item)]
  {
    ConcatAssoc(m.calls, [Started(item)], [Stopped(item)]);
  }

  class PluginManager {
    var routes: map<string, Meta>
    var plugins: set<string>
    ghost var calls: seq<PluginCall>

    ghost function Model(): Manager
      reads this
    {
      Manager(routes, calls)
    }

    constructor ()
      ensures Model() == Manager(map[], []) && plugins == {} && Consistent(Model(), plugins)
    {
      routes, plugins, calls := map[], {}, [];
    }

    method Register(protocol: string)
      requires Consistent(Model(), plugins)
      modifies this`plugins
      ensures plugins == old(plugins) + {protocol} && Consistent(Model(), plugins)
    {
      plugins := plugins + {protocol};
    }

    /** `answer` is what the plugin's RunProxy returns, None for its error. */
    method AddProxy(item: Meta, answer: Option<ProxyTuple>) returns (tuple: Option<ProxyTuple>)
      requires Consistent(Model(), plugins)
      modifies this`routes, this`calls
      ensures Consistent(Model(), plugins)
      ensures if Admits(old(Model()), plugins, item) && answer.Some?
              then tuple == answer && Model() == Added(old(Model()), item)
              else tuple == None && Model() == old(Model())
      ensures tuple.Some? ==> Routed(Model(), item) && !Routed(old(Model()), item)
    {
      var key := Identify(item);
      if key in routes {
        return None;
      }
      if item.protocol !in plugins {
        return None;
      }
      if answer == None {
        return None;
      }
      AddedConsistent(Model(), plugins, item);
      calls := calls + [Started(item)];
      routes := routes[key := item];
      return answer;
    }

    /** No check at all: a caller that adds first and deletes once keeps everything in step. */
    method DelProxy(item: Meta)
      requires Consistent(Model(), plugins)
      modifies this`routes, this`calls
      ensures Model() == Deleted(old(Model()), plugins, item)
      ensures Consistent(Model(), plugins)
         <==> Routed(old(Model()), item) || (Identify(item) !in old(routes) && item.protocol !in plugins)
      ensures forall other :: Routed(Model(), other) <==> Routed(old(Model()), other) && Identify(other) != Identify(item)
    {
      DeletedConsistent(Model(), plugins, item);
      var key := Identify(item);
      if item.protocol in plugins {
        calls := calls + [Stopped(item)];
      }
      routes := routes - {key};
    }
  }
}
