/** What a node sends on an arrival, copy by copy, and what a run guarantees to a message that arrives. */
module Delivery {
  import opened Outcomes
  import opened Flood
  import opened Mesh
  import opened Network
  import opened Cost

  // ----- When a copy goes out -----

  /** A handled packet that is passed on. */
  predicate PassedOn(me: NodeId, n: Node, q: Packet, env: Env) {
    && q.ttl > 1
    && match q.content
       case Chat(id, None) => Brings(me, n, q, env, id)
       case Chat(id, Some(to)) => !env.blocked && (to == me ==> Brings(me, n, q, env, id))
       case Leave => true
       case Ack(_, addressee) => addressee != me
       case Sealed(_) => false
       case Fragment(_) => false
  }

  /** A copy of a packet with one hop less, to one of the node's connections. */
  predicate OneHopLess(me: NodeId, links: seq<NodeId>, q: Packet, c: Copy) {
    q.ttl > 1 && c.src == me && c.dst in links && c.packet == q.(ttl := q.ttl - 1)
  }

  /** The acknowledgement of a message, with TTL 3, to its sender's last connection. */
  predicate Acknowledges(me: NodeId, n: Node, q: Packet, env: Env, c: Copy) {
    && c.packet.content.Ack? && Brings(me, n, q, env, c.packet.content.id)
    && (q.content != Chat(c.packet.content.id, None) || env.wantsAck) && c.packet.content.id !in n.acked
    && env.route.Some? && c == Copy(me, env.route.value, Packet(env.name, 3, Ack(c.packet.content.id, q.sender)))
  }

  predicate Answers(me: NodeId, links: seq<NodeId>, n: Node, q: Packet, env: Env, c: Copy) {
    (PassedOn(me, n, q, env) && OneHopLess(me, links, q, c)) || Acknowledges(me, n, q, env, c)
  }

  lemma BroadcastSends(me: NodeId, links: seq<NodeId>, p: Packet, c: Copy)
    ensures c in Broadcast(me, links, p) <==> c.src == me && c.dst in links && c.packet == p
  {
    if c.src == me && c.dst in links && c.packet == p {
      var i :| 0 <= i < |links| && links[i] == c.dst;
      assert Broadcast(me, links, p)[i] == c;
    }
  }

  lemma RelaySends(me: NodeId, links: seq<NodeId>, p: Packet, c: Copy)
    ensures c in Relay(me, links, p) <==> OneHopLess(me, links, p, c)
  {
    if p.ttl > 1 {
      BroadcastSends(me, links, p.(ttl := p.ttl - 1), c);
    }
  }

  lemma HandleSends(me: NodeId, links: seq<NodeId>, n: Node, q: Packet, env: Env, c: Copy)
    ensures c in Handle(me, links, n, q, env).1 <==> Answers(me, links, n, q, env, c)
  {
    RelaySends(me, links, q, c);
    match q.content
    case Chat(id, to) =>
      if Brings(me, n, q, env, id) {
        NewChatSends(me, links, n, q, env, c);
      }
    case Sealed(id) =>
      if Brings(me, n, q, env, id) {
        AckSends(me, n, q, env, id, c);
      }
    case _ =>
  }

  /** The acknowledgement of a message that is being delivered. */
  lemma AckSends(me: NodeId, n: Node, q: Packet, env: Env, id: MessageId, c: Copy)
    requires Brings(me, n, q, env, id) && (q.content != Chat(id, None) || env.wantsAck)
    ensures c in SendAck(me, Mesh.Deliver(n, id), id, q.sender, env).1 <==> Acknowledges(me, n, q, env, c)
  {
  }

  lemma NewChatSends(me: NodeId, links: seq<NodeId>, n: Node, q: Packet, env: Env, c: Copy)
    requires q.content.Chat? && Brings(me, n, q, env, q.content.id)
    ensures c in Handle(me, links, n, q, env).1 <==> OneHopLess(me, links, q, c) || Acknowledges(me, n, q, env, c)
  {
    var id, relay := q.content.id, Relay(me, links, q);
    RelaySends(me, links, q, c);
    if q.content.recipient.Some? || env.wantsAck {
      var ack := SendAck(me, Mesh.Deliver(n, id), id, q.sender, env).1;
      AckSends(me, n, q, env, id, c);
      assert Handle(me, links, n, q, env).1 == ack + relay;
    } else {
      assert Handle(me, links, n, q, env).1 == [] + relay;
    }
  }

  /**
   Exactly which copies a node sends on an arrival: the handled packet with one hop less, for a new message to everybody or
   to this node, a message to another node, a leave, or an acknowledgement to another node; the acknowledgement of a
   private message it delivers; and the fragment itself with one hop less, unless reassembly raised.
   */
  lemma SendsWhen(me: NodeId, links: seq<NodeId>, n: Node, p: Packet, env: Env, c: Copy)
    ensures
      var q := Handled(me, p, env);
      c in OnPacket(me, links, n, p, env).1 <==>
        || (q.Some? && Answers(me, links, n, q.value, env, c))
        || (p.sender != me && p.content.Fragment? && !env.raises && OneHopLess(me, links, p, c))
  {
    RelaySends(me, links, p, c);
    var q := Handled(me, p, env);
    if q.Some? {
      HandleSends(me, links, n, q.value, env, c);
    }
  }

  // ----- No copy twice -----

  ghost predicate NoRepeats(cs: seq<Copy>) {
    forall i, j :: 0 <= i < j < |cs| ==> cs[i] != cs[j]
  }

  lemma ConcatNoRepeats(a: seq<Copy>, b: seq<Copy>)
    requires NoRepeats(a) && NoRepeats(b) && forall c :: c in a ==> c !in b
    ensures NoRepeats(a + b)
  {
    var s := a + b;
    forall i, j | 0 <= i < j < |s|
      ensures s[i] != s[j]
    {
      assert i < |a| <= j ==> s[i] in a && s[j] in b;
    }
  }

  lemma HandleNoRepeats(me: NodeId, links: seq<NodeId>, n: Node, q: Packet, env: Env)
    requires forall i, j :: 0 <= i < j < |links| ==> links[i] != links[j]
    ensures NoRepeats(Handle(me, links, n, q, env).1)
  {
    if q.content.Chat? {
      var ack := SendAck(me, Mesh.Deliver(n, q.content.id), q.content.id, q.sender, env).1;
      ConcatNoRepeats(ack, Relay(me, links, q));
      ConcatNoRepeats([], Relay(me, links, q));
    }
  }

  /** Over distinct connections no copy is sent twice. */
  lemma SendsOnce(me: NodeId, links: seq<NodeId>, n: Node, p: Packet, env: Env)
    requires forall i, j :: 0 <= i < j < |links| ==> links[i] != links[j]
    ensures NoRepeats(OnPacket(me, links, n, p, env).1)
  {
    if !p.content.Fragment? {
      HandleNoRepeats(me, links, n, p, env);
    } else {
      var answers := if env.whole.Some? then Handle(me, links, n, env.whole.value, env).1 else [];
      var relay := if env.raises then [] else Relay(me, links, p);
      if env.whole.Some? {
        HandleNoRepeats(me, links, n, env.whole.value, env);
        NoFragments(me, links, n, env.whole.value, env);
      }
      ConcatNoRepeats(answers, relay);
    }
  }

  lemma NoFragments(me: NodeId, links: seq<NodeId>, n: Node, q: Packet, env: Env)
    ensures forall c :: c in Handle(me, links, n, q, env).1 ==> !c.packet.content.Fragment?
  {
  }

  // ----- Runs -----

  /**
   On every run, a message that arrives at a node encrypted, to everybody or to that node, on its own or completed by a
   fragment, readable and from nobody blocked, has been handed to the application from then on.
   */
  lemma ArrivedIsDelivered(top: Topology, states: seq<Net>, acts: seq<Action>, i: nat, k: nat, v: NodeId, q: Packet, id: MessageId)
    requires Trace(top, states, acts) && AllOnce(states[0]) && i < k <= |acts|
    requires acts[i].Arrive? && states[i].flight[acts[i].index].dst == v
    requires Handled(v, states[i].flight[acts[i].index].packet, acts[i].env) == Some(q)
    requires q.content == Sealed(id) || q.content == Chat(id, None) || q.content == Chat(id, Some(v))
    requires !acts[i].env.blocked && acts[i].env.readable
    ensures v in states[k].nodes && id in states[k].nodes[v].delivered
  {
    var s, a := states[i], acts[i];
    DeliversWhen(v, top[v], s.nodes[v], s.flight[a.index].packet, a.env, id);
    assert Knows(states[i + 1], v, id);
    StillKnows(top, states, acts, id, v, i + 1, k);
    AtMostOnceDelivery(top, states, acts, k);
  }

  /** And only so: an id that is in no node's hands at first is delivered only by such an arrival. */
  lemma {:induction false} DeliveredByArrival(top: Topology, states: seq<Net>, acts: seq<Action>, k: nat, v: NodeId,
                                              id: MessageId) returns (i: nat)
    requires Trace(top, states, acts) && AllOnce(states[0]) && k <= |acts|
    requires v in states[0].nodes && id !in states[0].nodes[v].delivered
    requires v in states[k].nodes && id in states[k].nodes[v].delivered
    ensures i < k && acts[i].Arrive? && states[i].flight[acts[i].index].dst == v
    ensures DeliverGuard(v, states[i].nodes[v], states[i].flight[acts[i].index].packet, acts[i].env, id)
    decreases k
  {
    TraceValid(top, states, acts, k - 1);
    AtMostOnceDelivery(top, states, acts, k - 1);
    AtMostOnceDelivery(top, states, acts, k);
    var s, a := states[k - 1], acts[k - 1];
    if v in s.nodes && id in s.nodes[v].delivered {
      i := DeliveredByArrival(top, states, acts, k - 1, v, id);
    } else {
      i := k - 1;
      TraceValid(top, states, acts, k);
      NewlyDelivered(top, s, a, v, id);
    }
  }

  lemma NewlyDelivered(top: Topology, s: Net, a: Action, v: NodeId, id: MessageId)
    requires Enabled(top, s, a) && v in s.nodes && id !in s.nodes[v].processed
    requires v in Next(top, s, a).nodes && id in Next(top, s, a).nodes[v].processed
    ensures a.Arrive? && s.flight[a.index].dst == v
    ensures DeliverGuard(v, s.nodes[v], s.flight[a.index].packet, a.env, id)
  {
    if a.Arrive? {
      var c := s.flight[a.index];
      DeliversWhen(c.dst, top[c.dst], s.nodes[c.dst], c.packet, a.env, id);
    }
  }
}
