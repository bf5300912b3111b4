/** A network of daemons: packets in flight on its links, delivered in any order, possibly lost. */
module Network {
  import opened Outcomes
  import opened Flood
  import opened Mesh

  /** `log` is the history of every copy ever sent. */
  datatype Net = Net(nodes: map<NodeId, Node>, flight: seq<Copy>, log: seq<Copy>)

  datatype Action =
    | Send(src: NodeId, packet: Packet)
    | SendTo(src: NodeId, dst: NodeId, packet: Packet)
    | Arrive(index: nat, env: Env)
    | Lose(index: nat)

  ghost predicate ValidNet(top: Topology, s: Net) {
    && s.nodes.Keys == top.Keys
    && forall c :: c in s.flight ==> c.dst in top
  }

  /** An action that makes sense: senders and receivers exist, and an acknowledgement goes to one of the node's connections. */
  ghost predicate Enabled(top: Topology, s: Net, a: Action) {
    match a
    case Send(src, _) => src in top
    case SendTo(src, dst, _) => src in top && dst in top[src]
    case Arrive(i, env) =>
      && i < |s.flight| && s.flight[i].dst in top && s.flight[i].dst in s.nodes
      && (env.route.Some? ==> env.route.value in top[s.flight[i].dst])
    case Lose(i) => i < |s.flight|
  }

  function Without(s: seq<Copy>, i: nat): seq<Copy>
    requires i < |s|
  {
    s[..i] + s[i + 1..]
  }

  function Emit(s: Net, out: seq<Copy>): Net {
    s.(flight := s.flight + out, log := s.log + out)
  }

  ghost function Next(top: Topology, s: Net, a: Action): Net
    requires Enabled(top, s, a)
  {
    match a
    case Send(src, p) => Emit(s, Broadcast(src, top[src], p))
    case SendTo(src, dst, p) => Emit(s, [Copy(src, dst, p)])
    case Arrive(i, env) =>
      var c := s.flight[i];
      var (n, out) := OnPacket(c.dst, top[c.dst], s.nodes[c.dst], c.packet, env);
      Emit(s.(nodes := s.nodes[c.dst := n], flight := Without(s.flight, i)), out)
    case Lose(i) => s.(flight := Without(s.flight, i))
  }

  /** What a handler sends: relays of the packet it was given, and acknowledgements, over its own connections. */
  ghost predicate Outgoing(me: NodeId, links: seq<NodeId>, p: Packet, c: Copy) {
    && c.src == me && c.dst in links
    && ((c.packet.content == p.content && c.packet.sender == p.sender) || c.packet.content.Ack?)
  }

  lemma HandleEmits(me: NodeId, links: seq<NodeId>, n: Node, p: Packet, env: Env)
    requires env.route.Some? ==> env.route.value in links
    ensures forall c :: c in Handle(me, links, n, p, env).1 ==> Outgoing(me, links, p, c)
  {
    assert forall c :: c in Relay(me, links, p) ==> Outgoing(me, links, p, c);
  }

  lemma NextValid(top: Topology, s: Net, a: Action)
    requires ValidTopology(top) && ValidNet(top, s) && Enabled(top, s, a)
    ensures ValidNet(top, Next(top, s, a))
  {
    if a.Arrive? {
      var c := s.flight[a.index];
      HandleEmits(c.dst, top[c.dst], s.nodes[c.dst], c.packet, a.env);
      if a.env.whole.Some? {
        HandleEmits(c.dst, top[c.dst], s.nodes[c.dst], a.env.whole.value, a.env);
      }
    }
  }

  /** A run: states and the actions between them, from a valid state on. */
  ghost predicate Trace(top: Topology, states: seq<Net>, acts: seq<Action>) {
    && ValidTopology(top) && |states| == |acts| + 1 && ValidNet(top, states[0])
    && (forall i :: 0 <= i < |acts| ==> Enabled(top, states[i], acts[i]) && states[i + 1] == Next(top, states[i], acts[i]))
  }

  lemma {:induction false} TraceValid(top: Topology, states: seq<Net>, acts: seq<Action>, k: nat)
    requires Trace(top, states, acts) && k <= |acts|
    ensures ValidNet(top, states[k])
  {
    if k > 0 {
      TraceValid(top, states, acts, k - 1);
      NextValid(top, states[k - 1], acts[k - 1]);
    }
  }

  // ----- At most once -----

  ghost predicate AllOnce(s: Net) {
    forall v :: v in s.nodes ==> DeliveredOnce(s.nodes[v])
  }

  /** On every run, whatever is sent, reassembled, duplicated or lost, no node delivers an id twice. */
  lemma {:induction false} AtMostOnceDelivery(top: Topology, states: seq<Net>, acts: seq<Action>, k: nat)
    requires Trace(top, states, acts) && AllOnce(states[0]) && k <= |acts|
    ensures AllOnce(states[k])
  {
    if k > 0 {
      AtMostOnceDelivery(top, states, acts, k - 1);
      var s, a := states[k - 1], acts[k - 1];
      if a.Arrive? {
        var c := s.flight[a.index];
        OnPacketDeliversOnce(c.dst, top[c.dst], s.nodes[c.dst], c.packet, a.env);
      }
    }
  }

  // ----- One broadcast message, projected out of the traffic -----

  predicate IsCopy(c: Copy, m: MessageId) {
    c.packet.content == Chat(m, None)
  }

  predicate Carries(p: Packet, m: MessageId) {
    (p.content.Chat? || p.content.Sealed?) && p.content.id == m
  }

  function Hops(cs: seq<Copy>, m: MessageId): seq<Hop> {
    if cs == [] then []
    else (if IsCopy(cs[0], m) then [Hop(cs[0].src, cs[0].dst, cs[0].packet.ttl)] else []) + Hops(cs[1..], m)
  }

  ghost function HaveSeen(nodes: map<NodeId, Node>, m: MessageId): set<NodeId> {
    set v | v in nodes && m in nodes[v].processed
  }

  lemma {:induction false} HopsConcat(a: seq<Copy>, b: seq<Copy>, m: MessageId)
    ensures Hops(a + b, m) == Hops(a, m) + Hops(b, m)
  {
    if a == [] {
      assert a + b == b;
    } else {
      var head := if IsCopy(a[0], m) then [Hop(a[0].src, a[0].dst, a[0].packet.ttl)] else [];
      assert Hops(a + b, m) == head + Hops(a[1..] + b, m) by {
        assert (a + b)[0] == a[0] && (a + b)[1..] == a[1..] + b;
      }
      HopsConcat(a[1..], b, m);
      assert head + (Hops(a[1..], m) + Hops(b, m)) == head + Hops(a[1..], m) + Hops(b, m);
    }
  }

  lemma {:induction false} HopsNone(cs: seq<Copy>, m: MessageId)
    requires forall c :: c in cs ==> !IsCopy(c, m)
    ensures Hops(cs, m) == []
  {
    if cs != [] {
      HopsNone(cs[1..], m);
    }
  }

  lemma {:induction false} HopsContain(cs: seq<Copy>, c: Copy, m: MessageId)
    requires c in cs && IsCopy(c, m)
    ensures Hop(c.src, c.dst, c.packet.ttl) in Hops(cs, m)
  {
    if c != cs[0] {
      HopsContain(cs[1..], c, m);
    }
  }

  lemma {:induction false} HopsOfBroadcast(v: NodeId, links: seq<NodeId>, p: Packet, m: MessageId)
    requires p.content == Chat(m, None)
    ensures Hops(Broadcast(v, links, p), m) == FanOut(v, links, p.ttl)
    decreases |links|
  {
    if links != [] {
      var cs := Broadcast(v, links, p);
      assert cs[1..] == Broadcast(v, links[1..], p) && cs[0] == Copy(v, links[0], p);
      HopsOfBroadcast(v, links[1..], p, m);
    }
  }

  /** Removing one copy removes its hop, at the position the projection gives it. */
  lemma HopsWithout(cs: seq<Copy>, i: nat, m: MessageId)
    requires i < |cs|
    ensures
      var k := |Hops(cs[..i], m)|;
      if IsCopy(cs[i], m) then
        && k < |Hops(cs, m)| && Hops(cs, m)[k] == Hop(cs[i].src, cs[i].dst, cs[i].packet.ttl)
        && Hops(Without(cs, i), m) == Hops(cs, m)[..k] + Hops(cs, m)[k + 1..]
      else Hops(Without(cs, i), m) == Hops(cs, m)
  {
    assert cs == cs[..i] + ([cs[i]] + cs[i + 1..]);
    HopsConcat(cs[..i], [cs[i]] + cs[i + 1..], m);
    HopsConcat([cs[i]], cs[i + 1..], m);
    HopsConcat(cs[..i], cs[i + 1..], m);
  }

  /** Everything in flight that carries id `m` is a copy of one broadcast, in which receivers read `from` as the sender. */
  ghost predicate OnlyFlood(s: Net, m: MessageId, from: NodeId) {
    forall c :: c in s.flight && Carries(c.packet, m) ==>
      IsCopy(c, m) && c.packet.sender == from && c.packet.ttl <= INITIAL_TTL
  }

  /** Nobody sends id `m` again and no fragment collector completes a packet that carries it. */
  ghost predicate Fresh(a: Action, m: MessageId) {
    match a
    case Send(_, p) => !Carries(p, m)
    case SendTo(_, _, p) => !Carries(p, m)
    case Arrive(_, env) => env.whole.Some? ==> !Carries(env.whole.value, m)
    case Lose(_) => true
  }

  lemma HandleOther(me: NodeId, links: seq<NodeId>, n: Node, p: Packet, env: Env, m: MessageId)
    requires !Carries(p, m)
    ensures
      var (n', out) := Handle(me, links, n, p, env);
      (m in n'.processed <==> m in n.processed) && forall c :: c in out ==> !Carries(c.packet, m)
  {
    RelayOther(me, links, p, m);
  }

  lemma RelayOther(me: NodeId, links: seq<NodeId>, p: Packet, m: MessageId)
    requires !Carries(p, m)
    ensures forall c :: c in Relay(me, links, p) ==> !Carries(c.packet, m)
  {
  }

  /** A packet without the id leaves it alone and sends nothing that carries it. */
  lemma OtherTraffic(me: NodeId, links: seq<NodeId>, n: Node, p: Packet, env: Env, m: MessageId)
    requires !Carries(p, m) && (env.whole.Some? ==> !Carries(env.whole.value, m))
    ensures
      var (n', out) := OnPacket(me, links, n, p, env);
      (m in n'.processed <==> m in n.processed) && forall c :: c in out ==> !Carries(c.packet, m)
  {
    RelayOther(me, links, p, m);
    if !p.content.Fragment? {
      HandleOther(me, links, n, p, env, m);
    } else if env.whole.Some? {
      HandleOther(me, links, n, env.whole.value, env, m);
    }
  }

  /** A copy of the broadcast is handled as the flood handles it. */
  lemma FloodTraffic(me: NodeId, links: seq<NodeId>, n: Node, p: Packet, env: Env, m: MessageId)
    requires p.content == Chat(m, None)
    ensures
      var (n', out) := OnPacket(me, links, n, p, env);
      var first := p.sender != me && !env.blocked && env.readable && m !in n.processed;
      && (m in n'.processed <==> m in n.processed || first)
      && Hops(out, m) == (if first && p.ttl > 1
                          then FanOut(me, links, p.ttl - 1) else [])
      && forall c :: c in out && Carries(c.packet, m) ==> IsCopy(c, m) && c.packet.sender == p.sender && c.packet.ttl <= p.ttl
  {
    var (n', out) := OnPacket(me, links, n, p, env);
    var relay := Relay(me, links, p);
    if p.ttl > 1 {
      HopsOfBroadcast(me, links, p.(ttl := p.ttl - 1), m);
    }
    var first := p.sender != me && !env.blocked && env.readable && m !in n.processed;
    if first {
      var ack := if env.wantsAck then SendAck(me, Mesh.Deliver(n, m), m, p.sender, env).1 else [];
      assert out == ack + relay;
      HopsConcat(ack, relay, m);
      HopsNone(ack, m);
    }
  }
}
