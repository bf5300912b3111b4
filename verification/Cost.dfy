/**
 What one broadcast id costs on any run, on which it may be sent whole, inside fragments or encrypted, by anybody and any
 number of times.
 */
module Cost {
  import opened Outcomes
  import opened Flood
  import opened FloodTheorems
  import opened Mesh
  import opened Network

  /** A handler either sends no copy of the broadcast, or records its id for the first time and sends to each connection. */
  ghost predicate RelaysFresh(me: NodeId, links: seq<NodeId>, n: Node, n': Node, hops: seq<Hop>, m: MessageId) {
    && n.processed <= n'.processed
    && (hops != [] ==> m !in n.processed && m in n'.processed && exists t :: hops == FanOut(me, links, t))
  }

  /** A packet that its handler floods on: a broadcast of this id, readable, from nobody blocked, new and not spent. */
  ghost predicate Floods(n: Node, p: Packet, env: Env, m: MessageId) {
    p.content == Chat(m, None) && p.ttl > 1 && !env.blocked && env.readable && m !in n.processed
  }

  lemma FloodsOn(me: NodeId, links: seq<NodeId>, n: Node, p: Packet, env: Env, m: MessageId)
    requires Floods(n, p, env, m)
    ensures Hops(Handle(me, links, n, p, env).1, m) == FanOut(me, links, p.ttl - 1)
  {
    var ack := if env.wantsAck then SendAck(me, Mesh.Deliver(n, m), m, p.sender, env).1 else [];
    var relay := Relay(me, links, p);
    assert Handle(me, links, n, p, env).1 == ack + relay;
    HopsConcat(ack, relay, m);
    HopsNone(ack, m);
    HopsOfBroadcast(me, links, p.(ttl := p.ttl - 1), m);
    assert [] + Hops(relay, m) == Hops(relay, m);
  }

  lemma OthersSilent(me: NodeId, links: seq<NodeId>, n: Node, p: Packet, env: Env, m: MessageId)
    requires !Floods(n, p, env, m)
    ensures Hops(Handle(me, links, n, p, env).1, m) == []
  {
    var out := Handle(me, links, n, p, env).1;
    assert forall c :: c in out ==> !IsCopy(c, m);
    HopsNone(out, m);
  }

  lemma HandleRelays(me: NodeId, links: seq<NodeId>, n: Node, p: Packet, env: Env, m: MessageId)
    ensures
      var (n', out) := Handle(me, links, n, p, env);
      RelaysFresh(me, links, n, n', Hops(out, m), m)
  {
    if Floods(n, p, env, m) {
      FloodsOn(me, links, n, p, env, m);
    } else {
      OthersSilent(me, links, n, p, env, m);
    }
  }

  lemma OnPacketRelays(me: NodeId, links: seq<NodeId>, n: Node, p: Packet, env: Env, m: MessageId)
    ensures
      var (n', out) := OnPacket(me, links, n, p, env);
      RelaysFresh(me, links, n, n', Hops(out, m), m)
  {
    if p.sender != me {
      if !p.content.Fragment? {
        HandleRelays(me, links, n, p, env, m);
      } else {
        var tail := if env.raises then [] else Relay(me, links, p);
        var head := if env.whole.Some? then Handle(me, links, n, env.whole.value, env).1 else [];
        HopsConcat(head, tail, m);
        HopsNone(tail, m);
        assert Hops(head, m) + [] == Hops(head, m);
        if env.whole.Some? {
          HandleRelays(me, links, n, env.whole.value, env, m);
        }
      }
    }
  }

  // ----- A node relays an id at most once -----

  /** The copies of the broadcast that an action makes a node relay. */
  ghost function RelayHops(top: Topology, s: Net, a: Action, m: MessageId): seq<Hop>
    requires Enabled(top, s, a)
  {
    if !a.Arrive? then []
    else
      var c := s.flight[a.index];
      Hops(OnPacket(c.dst, top[c.dst], s.nodes[c.dst], c.packet, a.env).1, m)
  }

  /** The copies of the broadcast that an action sends as somebody's own message. */
  ghost function SendHops(top: Topology, s: Net, a: Action, m: MessageId): seq<Hop>
    requires Enabled(top, s, a)
  {
    match a
    case Send(src, p) => Hops(Broadcast(src, top[src], p), m)
    case SendTo(src, dst, p) => Hops([Copy(src, dst, p)], m)
    case _ => []
  }

  ghost predicate RelaysAt(top: Topology, s: Net, a: Action, m: MessageId, v: NodeId) {
    Enabled(top, s, a) && a.Arrive? && s.flight[a.index].dst == v && RelayHops(top, s, a, m) != []
  }

  ghost predicate Knows(s: Net, v: NodeId, m: MessageId) {
    v in s.nodes && m in s.nodes[v].processed
  }

  lemma RelayLearns(top: Topology, s: Net, a: Action, m: MessageId, v: NodeId)
    requires Enabled(top, s, a)
    ensures RelaysAt(top, s, a, m, v) ==> !Knows(s, v, m) && Knows(Next(top, s, a), v, m)
    ensures RelaysAt(top, s, a, m, v) ==> exists t :: RelayHops(top, s, a, m) == FanOut(v, top[v], t)
    ensures Knows(s, v, m) ==> Knows(Next(top, s, a), v, m)
  {
    if a.Arrive? {
      var c := s.flight[a.index];
      OnPacketRelays(c.dst, top[c.dst], s.nodes[c.dst], c.packet, a.env, m);
    }
  }

  lemma {:induction false} StillKnows(top: Topology, states: seq<Net>, acts: seq<Action>, m: MessageId, v: NodeId,
                                      i: nat, j: nat)
    requires Trace(top, states, acts) && i <= j <= |acts| && Knows(states[i], v, m)
    ensures Knows(states[j], v, m)
    decreases j
  {
    if i < j {
      StillKnows(top, states, acts, m, v, i, j - 1);
      RelayLearns(top, states[j - 1], acts[j - 1], m, v);
    }
  }

  /** On every run, however the id travels, a node that has relayed it does not relay it again. */
  lemma RelaysOnce(top: Topology, states: seq<Net>, acts: seq<Action>, m: MessageId, v: NodeId, i: nat, j: nat)
    requires Trace(top, states, acts) && i < j < |acts|
    requires RelaysAt(top, states[i], acts[i], m, v)
    ensures !RelaysAt(top, states[j], acts[j], m, v)
  {
    RelayLearns(top, states[i], acts[i], m, v);
    StillKnows(top, states, acts, m, v, i + 1, j);
    RelayLearns(top, states[j], acts[j], m, v);
  }

  // ----- When a node relays -----

  /** An arrival floods on if its packet does, which the receiver does not take for its own, or the packet it completes. */
  ghost predicate RelayGuard(top: Topology, s: Net, a: Action, m: MessageId, v: NodeId) {
    && Enabled(top, s, a) && a.Arrive? && s.flight[a.index].dst == v && top[v] != []
    && var n, p := s.nodes[v], s.flight[a.index].packet;
    && p.sender != v
    && (Floods(n, p, a.env, m) || (p.content.Fragment? && a.env.whole.Some? && Floods(n, a.env.whole.value, a.env, m)))
  }

  lemma HandleFloods(me: NodeId, links: seq<NodeId>, n: Node, p: Packet, env: Env, m: MessageId)
    ensures Hops(Handle(me, links, n, p, env).1, m) != [] <==> links != [] && Floods(n, p, env, m)
  {
    if Floods(n, p, env, m) {
      FloodsOn(me, links, n, p, env, m);
    } else {
      OthersSilent(me, links, n, p, env, m);
    }
  }

  /** A node relays the id exactly when this can be seen of the arrival beforehand. */
  lemma RelaysWhen(top: Topology, s: Net, a: Action, m: MessageId, v: NodeId)
    ensures RelaysAt(top, s, a, m, v) <==> RelayGuard(top, s, a, m, v)
  {
    if Enabled(top, s, a) && a.Arrive? && s.flight[a.index].dst == v && s.flight[a.index].packet.sender != v {
      var p, n, env := s.flight[a.index].packet, s.nodes[v], a.env;
      if !p.content.Fragment? {
        HandleFloods(v, top[v], n, p, env, m);
      } else {
        var tail := if env.raises then [] else Relay(v, top[v], p);
        var head := if env.whole.Some? then Handle(v, top[v], n, env.whole.value, env).1 else [];
        HopsConcat(head, tail, m);
        HopsNone(tail, m);
        if env.whole.Some? {
          HandleFloods(v, top[v], n, env.whole.value, env, m);
        }
      }
    }
  }

  // ----- How often a link is crossed -----

  function Crossings(log: seq<Hop>, u: NodeId, v: NodeId): nat {
    if log == [] then 0
    else
      var h := log[|log| - 1];
      Crossings(log[..|log| - 1], u, v) + if h.src == u && h.dst == v then 1 else 0
  }

  lemma {:induction false} CrossingsConcat(a: seq<Hop>, b: seq<Hop>, u: NodeId, v: NodeId)
    ensures Crossings(a + b, u, v) == Crossings(a, u, v) + Crossings(b, u, v)
    decreases |b|
  {
    if b == [] {
      assert a + b == a;
    } else {
      assert (a + b)[..|a + b| - 1] == a + b[..|b| - 1];
      CrossingsConcat(a, b[..|b| - 1], u, v);
    }
  }

  lemma {:induction false} CrossingsFan(me: NodeId, links: seq<NodeId>, ttl: nat, u: NodeId, v: NodeId)
    requires forall i, j :: 0 <= i < j < |links| ==> links[i] != links[j]
    ensures Crossings(FanOut(me, links, ttl), u, v) == if u == me && v in links then 1 else 0
    decreases |links|
  {
    if links != [] {
      var n := |links| - 1;
      assert FanOut(me, links, ttl)[..n] == FanOut(me, links[..n], ttl);
      CrossingsFan(me, links[..n], ttl, u, v);
      assert links == links[..n] + [links[n]];
    }
  }

  lemma {:induction false} CrossingsAbove(log: seq<Hop>, i: nat, j: nat)
    requires i < |log| && j < |log|
    ensures Crossings(log, log[i].src, log[i].dst) >= 1
    ensures i < j && log[i].src == log[j].src && log[i].dst == log[j].dst ==> Crossings(log, log[i].src, log[i].dst) >= 2
    decreases |log|
  {
    var n := |log| - 1;
    if i < n {
      CrossingsAbove(log[..n], i, if j < n then j else i);
    }
  }

  lemma {:induction false} CrossingsBelow(log: seq<Hop>, u: NodeId, v: NodeId)
    requires OncePerLink(log)
    ensures Crossings(log, u, v) <= 1
    ensures Crossings(log, u, v) == 1 ==> exists i :: 0 <= i < |log| && log[i].src == u && log[i].dst == v
  {
    if log != [] {
      CrossingsBelow(log[..|log| - 1], u, v);
    }
  }

  /** No link twice, by positions and by counting. */
  lemma OncePerLinkCounts(log: seq<Hop>)
    ensures OncePerLink(log) <==> forall u, v :: Crossings(log, u, v) <= 1
  {
    if OncePerLink(log) {
      forall u, v {
        CrossingsBelow(log, u, v);
      }
    } else {
      var i, j :| 0 <= i < j < |log| && log[i].src == log[j].src && log[i].dst == log[j].dst;
      CrossingsAbove(log, i, j);
    }
  }

  // ----- The cost of a run -----

  ghost function RelayLog(top: Topology, states: seq<Net>, acts: seq<Action>, m: MessageId, k: nat): seq<Hop>
    requires Trace(top, states, acts) && k <= |acts|
  {
    if k == 0 then [] else RelayLog(top, states, acts, m, k - 1) + RelayHops(top, states[k - 1], acts[k - 1], m)
  }

  ghost function SendLog(top: Topology, states: seq<Net>, acts: seq<Action>, m: MessageId, k: nat): seq<Hop>
    requires Trace(top, states, acts) && k <= |acts|
  {
    if k == 0 then [] else SendLog(top, states, acts, m, k - 1) + SendHops(top, states[k - 1], acts[k - 1], m)
  }

  ghost function Emitted(top: Topology, s: Net, a: Action): seq<Copy>
    requires Enabled(top, s, a)
  {
    match a
    case Send(src, p) => Broadcast(src, top[src], p)
    case SendTo(src, dst, p) => [Copy(src, dst, p)]
    case Arrive(i, env) => var c := s.flight[i]; OnPacket(c.dst, top[c.dst], s.nodes[c.dst], c.packet, env).1
    case Lose(_) => []
  }

  lemma NextLog(top: Topology, s: Net, a: Action, m: MessageId)
    requires Enabled(top, s, a)
    ensures Hops(Next(top, s, a).log, m) == Hops(s.log, m) + SendHops(top, s, a, m) + RelayHops(top, s, a, m)
  {
    var out := Emitted(top, s, a);
    assert Next(top, s, a).log == s.log + out;
    HopsConcat(s.log, out, m);
    assert Hops(out, m) == SendHops(top, s, a, m) + RelayHops(top, s, a, m);
    assert Hops(s.log, m) + (SendHops(top, s, a, m) + RelayHops(top, s, a, m)) ==
           Hops(s.log, m) + SendHops(top, s, a, m) + RelayHops(top, s, a, m);
  }

  /** Every crossing of a link is somebody's own transmission or a relay. */
  lemma {:induction false} TrafficSplits(top: Topology, states: seq<Net>, acts: seq<Action>, m: MessageId, k: nat,
                                         u: NodeId, v: NodeId)
    requires Trace(top, states, acts) && k <= |acts|
    ensures
      var sent, relayed := SendLog(top, states, acts, m, k), RelayLog(top, states, acts, m, k);
      && |Hops(states[k].log, m)| == |Hops(states[0].log, m)| + |sent| + |relayed|
      && Crossings(Hops(states[k].log, m), u, v) ==
         Crossings(Hops(states[0].log, m), u, v) + Crossings(sent, u, v) + Crossings(relayed, u, v)
    decreases k
  {
    if k > 0 {
      TrafficSplits(top, states, acts, m, k - 1, u, v);
      var s, a := states[k - 1], acts[k - 1];
      NextLog(top, s, a, m);
      CrossingsConcat(Hops(s.log, m) + SendHops(top, s, a, m), RelayHops(top, s, a, m), u, v);
      CrossingsConcat(Hops(s.log, m), SendHops(top, s, a, m), u, v);
      CrossingsConcat(SendLog(top, states, acts, m, k - 1), SendHops(top, s, a, m), u, v);
      CrossingsConcat(RelayLog(top, states, acts, m, k - 1), RelayHops(top, s, a, m), u, v);
    }
  }

  /** Node `u` relays the id during the first `k` actions. */
  ghost predicate Relays(top: Topology, states: seq<Net>, acts: seq<Action>, m: MessageId, u: NodeId, k: nat)
    requires |states| == |acts| + 1 && k <= |acts|
  {
    exists i :: 0 <= i < k && RelaysAt(top, states[i], acts[i], m, u)
  }

  /** What relays add to the crossings of a link. */
  ghost function RelayShare(top: Topology, states: seq<Net>, acts: seq<Action>, m: MessageId, k: nat, u: NodeId, v: NodeId)
    : nat
    requires |states| == |acts| + 1 && k <= |acts|
  {
    if u in top && v in top[u] && Relays(top, states, acts, m, u, k) then 1 else 0
  }

  lemma ShareGrows(top: Topology, states: seq<Net>, acts: seq<Action>, m: MessageId, k: nat, u: NodeId, v: NodeId)
    requires Trace(top, states, acts) && 1 <= k <= |acts|
    ensures
      RelayShare(top, states, acts, m, k, u, v) == RelayShare(top, states, acts, m, k - 1, u, v) +
      if RelaysAt(top, states[k - 1], acts[k - 1], m, u) && v in top[u] then 1 else 0
  {
    if RelaysAt(top, states[k - 1], acts[k - 1], m, u) {
      if i :| 0 <= i < k - 1 && RelaysAt(top, states[i], acts[i], m, u) {
        RelaysOnce(top, states, acts, m, u, i, k - 1);
      }
    }
  }

  lemma HopsCrossings(top: Topology, s: Net, a: Action, m: MessageId, u: NodeId, v: NodeId)
    requires ValidTopology(top) && Enabled(top, s, a)
    ensures Crossings(RelayHops(top, s, a, m), u, v) == if RelaysAt(top, s, a, m, u) && v in top[u] then 1 else 0
  {
    if RelayHops(top, s, a, m) != [] {
      var w := s.flight[a.index].dst;
      RelayLearns(top, s, a, m, w);
      var t :| RelayHops(top, s, a, m) == FanOut(w, top[w], t);
      CrossingsFan(w, top[w], t, u, v);
    }
  }

  /** Relays cross a link once if its sender ever relays the id, and never otherwise. */
  lemma {:induction false} RelayCrossings(top: Topology, states: seq<Net>, acts: seq<Action>, m: MessageId, k: nat,
                                          u: NodeId, v: NodeId)
    requires Trace(top, states, acts) && k <= |acts|
    ensures Crossings(RelayLog(top, states, acts, m, k), u, v) == RelayShare(top, states, acts, m, k, u, v)
    decreases k
  {
    if k > 0 {
      var s, a := states[k - 1], acts[k - 1];
      RelayCrossings(top, states, acts, m, k - 1, u, v);
      CrossingsConcat(RelayLog(top, states, acts, m, k - 1), RelayHops(top, s, a, m), u, v);
      HopsCrossings(top, s, a, m, u, v);
      ShareGrows(top, states, acts, m, k, u, v);
    }
  }

  /** On every run the relays of one id cross each directed link at most once, and number at most the links. */
  lemma RelayCost(top: Topology, states: seq<Net>, acts: seq<Action>, m: MessageId, k: nat)
    requires Trace(top, states, acts) && k <= |acts|
    ensures OncePerLink(RelayLog(top, states, acts, m, k)) && |RelayLog(top, states, acts, m, k)| <= |Links(top)|
  {
    var log := RelayLog(top, states, acts, m, k);
    forall u, v {
      RelayCrossings(top, states, acts, m, k, u, v);
    }
    OncePerLinkCounts(log);
    forall i | 0 <= i < |log|
      ensures (log[i].src, log[i].dst) in Links(top)
    {
      CrossingsAbove(log, i, i);
      LinkOf(top, log[i].src, log[i].dst);
    }
    DistinctFit(log, Links(top));
  }

  lemma LinkOf(top: Topology, u: NodeId, v: NodeId)
    requires u in top && v in top[u]
    ensures (u, v) in Links(top)
  {
    var j :| 0 <= j < |top[u]| && top[u][j] == v;
  }

  /** An action that sends no copy of the broadcast of its own. */
  ghost predicate SendsNoCopy(a: Action, m: MessageId) {
    (a.Send? || a.SendTo?) ==> a.packet.content != Chat(m, None)
  }

  lemma SendsNothing(top: Topology, s: Net, a: Action, m: MessageId)
    requires Enabled(top, s, a) && SendsNoCopy(a, m)
    ensures SendHops(top, s, a, m) == []
  {
    match a
    case Send(src, p) => HopsNone(Broadcast(src, top[src], p), m);
    case SendTo(src, dst, p) => HopsNone([Copy(src, dst, p)], m);
    case _ =>
  }

  /** A run from a network that has not sent the broadcast, in which `q` is the only action that may send it whole. */
  ghost predicate OneSender(top: Topology, states: seq<Net>, acts: seq<Action>, m: MessageId, q: nat) {
    && Trace(top, states, acts) && Hops(states[0].log, m) == []
    && forall i :: 0 <= i < |acts| && i != q ==> SendsNoCopy(acts[i], m)
  }

  lemma {:induction false} SendLogIs(top: Topology, states: seq<Net>, acts: seq<Action>, m: MessageId, q: nat, k: nat)
    requires OneSender(top, states, acts, m, q) && k <= |acts|
    ensures SendLog(top, states, acts, m, k) == if q < k then SendHops(top, states[q], acts[q], m) else []
    decreases k
  {
    if k > 0 {
      SendLogIs(top, states, acts, m, q, k - 1);
      if q != k - 1 {
        SendsNothing(top, states[k - 1], acts[k - 1], m);
      }
    }
  }

  /** A broadcast that is only ever reassembled from fragments crosses each directed link at most once. */
  lemma ReassembledCost(top: Topology, states: seq<Net>, acts: seq<Action>, m: MessageId)
    requires OneSender(top, states, acts, m, |acts|)
    ensures
      var log := Hops(states[|acts|].log, m);
      OncePerLink(log) && |log| <= |Links(top)|
  {
    var k := |acts|;
    var log := Hops(states[k].log, m);
    SendLogIs(top, states, acts, m, k, k);
    RelayCost(top, states, acts, m, k);
    TrafficSplits(top, states, acts, m, k, 0, 0);
    forall u, v
      ensures Crossings(log, u, v) <= 1
    {
      TrafficSplits(top, states, acts, m, k, u, v);
      RelayCrossings(top, states, acts, m, k, u, v);
    }
    OncePerLinkCounts(log);
  }

  /**
   A broadcast that its origin sends whole once, and that may also be reassembled or decrypted anywhere: at most one copy
   per link and one more per connection of the origin; no link is crossed twice if and only if the origin never relays
   its own message, that is if no arrival there meets the guard, and then there are at most as many copies as links.
   */
  lemma BroadcastCost(top: Topology, states: seq<Net>, acts: seq<Action>, m: MessageId, origin: NodeId, q: nat, p: Packet)
    requires OneSender(top, states, acts, m, q) && q < |acts| && acts[q] == Send(origin, p) && p.content == Chat(m, None)
    ensures
      var log := Hops(states[|acts|].log, m);
      && |log| <= |Links(top)| + |top[origin]|
      && (OncePerLink(log) <==> !Relays(top, states, acts, m, origin, |acts|))
      && (OncePerLink(log) <==> forall i :: 0 <= i < |acts| ==> !RelayGuard(top, states[i], acts[i], m, origin))
      && (OncePerLink(log) ==> |log| <= |Links(top)|)
  {
    var k := |acts|;
    var log := Hops(states[k].log, m);
    SendLogIs(top, states, acts, m, q, k);
    HopsOfBroadcast(origin, top[origin], p, m);
    RelayCost(top, states, acts, m, k);
    TrafficSplits(top, states, acts, m, k, 0, 0);
    forall u, v
      ensures Crossings(log, u, v) ==
              (if u == origin && v in top[origin] then 1 else 0) + RelayShare(top, states, acts, m, k, u, v)
    {
      TrafficSplits(top, states, acts, m, k, u, v);
      CrossingsFan(origin, top[origin], p.ttl, u, v);
      RelayCrossings(top, states, acts, m, k, u, v);
    }
    OncePerLinkCounts(log);
    OriginTwice(top, states, acts, m, origin, k, log);
    GuardsRelays(top, states, acts, m, origin);
    OnLinks(top, states, acts, m, origin, k, log);
  }

  lemma GuardsRelays(top: Topology, states: seq<Net>, acts: seq<Action>, m: MessageId, v: NodeId)
    requires |states| == |acts| + 1
    ensures Relays(top, states, acts, m, v, |acts|)
       <==> exists i :: 0 <= i < |acts| && RelayGuard(top, states[i], acts[i], m, v)
  {
    forall i | 0 <= i < |acts|
      ensures RelaysAt(top, states[i], acts[i], m, v) <==> RelayGuard(top, states[i], acts[i], m, v)
    {
      RelaysWhen(top, states[i], acts[i], m, v);
    }
  }

  /** The origin's links are crossed twice if and only if it relays as well. */
  lemma OriginTwice(top: Topology, states: seq<Net>, acts: seq<Action>, m: MessageId, origin: NodeId, k: nat,
                    log: seq<Hop>)
    requires Trace(top, states, acts) && k <= |acts| && origin in top
    requires forall u, v :: Crossings(log, u, v) ==
               (if u == origin && v in top[origin] then 1 else 0) + RelayShare(top, states, acts, m, k, u, v)
    ensures (forall u, v :: Crossings(log, u, v) <= 1) <==> !Relays(top, states, acts, m, origin, k)
  {
    if Relays(top, states, acts, m, origin, k) {
      var i :| 0 <= i < k && RelaysAt(top, states[i], acts[i], m, origin);
      RelayLearns(top, states[i], acts[i], m, origin);
      assert top[origin] != [];
      assert Crossings(log, origin, top[origin][0]) == 2;
    }
  }

  lemma OnLinks(top: Topology, states: seq<Net>, acts: seq<Action>, m: MessageId, origin: NodeId, k: nat, log: seq<Hop>)
    requires Trace(top, states, acts) && k <= |acts| && origin in top
    requires forall u, v :: Crossings(log, u, v) ==
               (if u == origin && v in top[origin] then 1 else 0) + RelayShare(top, states, acts, m, k, u, v)
    ensures OncePerLink(log) ==> |log| <= |Links(top)|
  {
    if OncePerLink(log) {
      forall i | 0 <= i < |log|
        ensures (log[i].src, log[i].dst) in Links(top)
      {
        CrossingsAbove(log, i, i);
        LinkOf(top, log[i].src, log[i].dst);
      }
      DistinctFit(log, Links(top));
    }
  }

  // ----- The origin can relay its own message -----

  const PAIR: Topology := map[0 := [1], 1 := [0]]
  const NEW: Node := Node({}, [], {})

  function Own(m: MessageId): Packet {
    Packet(0, INITIAL_TTL, Chat(m, None))
  }

  /** The author sends its message; a fragment from node 1 completes it at the author; the first copy arrives at node 1. */
  function EchoActs(m: MessageId): seq<Action> {
    var plain := Env(false, true, false, None, None, false, 0);
    [Send(0, Own(m)), SendTo(1, 0, Packet(1, 1, Fragment(None))), Arrive(1, plain.(whole := Some(Own(m)))), Arrive(0, plain)]
  }

  function EchoStates(m: MessageId): seq<Net> {
    var done := Node({m}, [m], {});
    var first, piece := Copy(0, 1, Own(m)), Copy(1, 0, Packet(1, 1, Fragment(None)));
    var again, back := Copy(0, 1, Own(m).(ttl := 6)), Copy(1, 0, Own(m).(ttl := 6));
    [Net(map[0 := NEW, 1 := NEW], [], []),
     Net(map[0 := NEW, 1 := NEW], [first], [first]),
     Net(map[0 := NEW, 1 := NEW], [first, piece], [first, piece]),
     Net(map[0 := done, 1 := NEW], [first, again], [first, piece, again]),
     Net(map[0 := done, 1 := done], [again, back], [first, piece, again, back])]
  }

  lemma EchoSends(m: MessageId, i: nat)
    requires i < 2
    ensures Enabled(PAIR, EchoStates(m)[i], EchoActs(m)[i])
    ensures EchoStates(m)[i + 1] == Next(PAIR, EchoStates(m)[i], EchoActs(m)[i])
  {
    assert Broadcast(0, [1], Own(m)) == [Copy(0, 1, Own(m))];
  }

  lemma EchoCompletes(m: MessageId)
    ensures Enabled(PAIR, EchoStates(m)[2], EchoActs(m)[2])
    ensures EchoStates(m)[3] == Next(PAIR, EchoStates(m)[2], EchoActs(m)[2])
  {
    var s, env, again := EchoStates(m)[2], EchoActs(m)[2].env, Copy(0, 1, Own(m).(ttl := 6));
    assert Relay(0, [1], Own(m)) == [again];
    var (n, out) := OnPacket(0, [1], NEW, Packet(1, 1, Fragment(None)), env);
    assert out == [again] && n == Node({m}, [m], {});
    assert Without(s.flight, 1) == [Copy(0, 1, Own(m))];
    assert s.nodes[0 := n] == map[0 := n, 1 := NEW];
  }

  lemma EchoRelayed(m: MessageId)
    ensures Enabled(PAIR, EchoStates(m)[3], EchoActs(m)[3])
    ensures EchoStates(m)[4] == Next(PAIR, EchoStates(m)[3], EchoActs(m)[3])
  {
    var s, env, back := EchoStates(m)[3], EchoActs(m)[3].env, Copy(1, 0, Own(m).(ttl := 6));
    assert Relay(1, [0], Own(m)) == [back];
    var (n, out) := OnPacket(1, [0], NEW, Own(m), env);
    assert out == [back] && n == Node({m}, [m], {});
    assert Without(s.flight, 0) == [Copy(0, 1, Own(m).(ttl := 6))];
    assert s.nodes[1 := n] == map[0 := n, 1 := n];
  }

  lemma EchoHops(m: MessageId)
    ensures Hops(EchoStates(m)[2].log, m) == [Hop(0, 1, 7)]
    ensures Hops(EchoStates(m)[3].log, m) == [Hop(0, 1, 7), Hop(0, 1, 6)]
    ensures Hops(EchoStates(m)[4].log, m) == [Hop(0, 1, 7), Hop(0, 1, 6), Hop(1, 0, 6)]
  {
    var first, piece := Copy(0, 1, Own(m)), Copy(1, 0, Packet(1, 1, Fragment(None)));
    var again, back := Copy(0, 1, Own(m).(ttl := 6)), Copy(1, 0, Own(m).(ttl := 6));
    assert [first, piece] == [first] + [piece];
    HopsConcat([first], [piece], m);
    assert [first, piece, again] == [first, piece] + [again];
    HopsConcat([first, piece], [again], m);
    assert [first, piece, again, back] == [first, piece, again] + [back];
    HopsConcat([first, piece, again], [back], m);
  }

  lemma PairLinks()
    ensures |Links(PAIR)| == 2
  {
    assert PAIR[0][0] == 1 && PAIR[1][0] == 0;
    assert Links(PAIR) == {(0, 1), (1, 0)};
  }

  lemma EchoTrace(m: MessageId)
    ensures Trace(PAIR, EchoStates(m), EchoActs(m))
  {
    var states, acts := EchoStates(m), EchoActs(m);
    assert ValidTopology(PAIR);
    forall i | 0 <= i < |acts|
      ensures Enabled(PAIR, states[i], acts[i]) && states[i + 1] == Next(PAIR, states[i], acts[i])
    {
      if i < 2 {
        EchoSends(m, i);
      } else {
        EchoCompletes(m);
        EchoRelayed(m);
      }
    }
  }

  lemma EchoSendsOnce(m: MessageId)
    ensures Hops(EchoStates(m)[0].log, m) == []
    ensures forall i :: 0 <= i < |EchoActs(m)| && i != 0 ==> SendsNoCopy(EchoActs(m)[i], m)
  {
  }

  lemma EchoRelays(m: MessageId)
    ensures Relays(PAIR, EchoStates(m), EchoActs(m), m, 0, 4)
  {
    var s, a := EchoStates(m)[2], EchoActs(m)[2];
    EchoCompletes(m);
    EchoHops(m);
    NextLog(PAIR, s, a, m);
    assert RelaysAt(PAIR, EchoStates(m)[2], EchoActs(m)[2], m, 0);
  }

  lemma EchoCost(m: MessageId)
    ensures
      var log := Hops(EchoStates(m)[4].log, m);
      !OncePerLink(log) && |log| == |Links(PAIR)| + |PAIR[0]|
  {
    var log := Hops(EchoStates(m)[4].log, m);
    EchoHops(m);
    PairLinks();
    assert log[0].src == log[1].src && log[0].dst == log[1].dst;
  }

  /**
   `_handle_packet_internal` does not look at the sender: when somebody else's fragments complete the author's message,
   the author is given it and floods it again. Three copies on two directed links: the bound of `BroadcastCost` is met.
   */
  lemma AuthorFloodsAgain(m: MessageId)
    ensures
      var states, acts := EchoStates(m), EchoActs(m);
      && OneSender(PAIR, states, acts, m, 0) && acts[0] == Send(0, Own(m))
      && Relays(PAIR, states, acts, m, 0, 4) && states[4].nodes[0].delivered == [m]
      && !OncePerLink(Hops(states[4].log, m)) && |Hops(states[4].log, m)| == |Links(PAIR)| + |PAIR[0]|
  {
    EchoTrace(m);
    EchoRelays(m);
    EchoCost(m);
    EchoSendsOnce(m);
  }
}
