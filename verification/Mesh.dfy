/** Packet handling at one daemon (`daemon/mesh.py`): what a node records and what it sends, as a function. */
module Mesh {
  import opened Outcomes
  import opened Flood
  import Fragments

  type MessageId = nat

  /** The packet types with a relay or a delivery in their handler; a fragment without a part is one too short to collect. */
  datatype Content =
    | Chat(id: MessageId, recipient: Option<NodeId>)
    | Leave
    | Sealed(id: MessageId)
    | Ack(id: MessageId, addressee: NodeId)
    | Fragment(part: Option<Fragments.Fragment>)

  datatype Packet = Packet(sender: NodeId, ttl: nat, content: Content)

  datatype Copy = Copy(src: NodeId, dst: NodeId, packet: Packet)

  /** `processed_messages`, the calls made to `on_message` in order, and `sent_acks`. */
  datatype Node = Node(processed: set<MessageId>, delivered: seq<MessageId>, acked: set<MessageId>)

  const INITIAL_TTL: nat := 7
  const ACK_TTL: nat := 3

  /**
   What a handler learns from outside this model: whether the sender is blocked, whether the payload decrypts and
   parses, whether a channel message is to be acknowledged, the connection its sender was last heard on, the packet
   that the fragment collector completes, if any, whether reassembly ends in an exception, and the sender that receivers
   read in this node's own packets, which is not its id if the id ends in a zero byte.
   */
  datatype Env = Env(
    blocked: bool, readable: bool, wantsAck: bool, route: Option<NodeId>, whole: Option<Packet>, raises: bool, name: NodeId)

  /** `broadcast_packet`: one copy per connection. */
  function Broadcast(me: NodeId, links: seq<NodeId>, p: Packet): seq<Copy> {
    seq(|links|, i requires 0 <= i < |links| => Copy(me, links[i], p))
  }

  function Relay(me: NodeId, links: seq<NodeId>, p: Packet): seq<Copy> {
    if p.ttl <= 1 then [] else Broadcast(me, links, p.(ttl := p.ttl - 1))
  }

  function SendAck(me: NodeId, n: Node, id: MessageId, to: NodeId, env: Env): (Node, seq<Copy>) {
    if id in n.acked then (n, [])
    else
      (n.(acked := n.acked + {id}),
       if env.route.Some? then [Copy(me, env.route.value, Packet(env.name, ACK_TTL, Ack(id, to)))] else [])
  }

  /** First receipt of an id: record it and hand it to the application. */
  function Deliver(n: Node, id: MessageId): Node {
    n.(processed := n.processed + {id}, delivered := n.delivered + [id])
  }

  function HandleChat(me: NodeId, links: seq<NodeId>, n: Node, p: Packet, env: Env): (Node, seq<Copy>)
    requires p.content.Chat?
  {
    var Chat(id, recipient) := p.content;
    if env.blocked then (n, [])
    else if recipient.Some? && recipient.value != me then (n, Relay(me, links, p))
    else if !env.readable || id in n.processed then (n, [])
    else
      var (n', ack) :=
        if recipient.Some? || env.wantsAck then SendAck(me, Deliver(n, id), id, p.sender, env) else (Deliver(n, id), []);
      (n', ack + Relay(me, links, p))
  }

  function HandleSealed(me: NodeId, n: Node, p: Packet, env: Env): (Node, seq<Copy>)
    requires p.content.Sealed?
  {
    if env.blocked || !env.readable || p.content.id in n.processed then (n, [])
    else SendAck(me, Deliver(n, p.content.id), p.content.id, p.sender, env)
  }

  /** `_handle_packet_internal`: the handlers a reassembled packet can reach; fragments are not among them. */
  function Handle(me: NodeId, links: seq<NodeId>, n: Node, p: Packet, env: Env): (Node, seq<Copy>) {
    match p.content
    case Chat(_, _) => HandleChat(me, links, n, p, env)
    case Leave => (n, Relay(me, links, p))
    case Sealed(_) => HandleSealed(me, n, p, env)
    case Ack(_, addressee) => (n, if addressee == me then [] else Relay(me, links, p))
    case Fragment(_) => (n, [])
  }

  /** `_on_packet_received`. */
  function OnPacket(me: NodeId, links: seq<NodeId>, n: Node, p: Packet, env: Env): (Node, seq<Copy>) {
    if p.sender == me then (n, [])
    else if !p.content.Fragment? then Handle(me, links, n, p, env)
    else
      var (n', out) := if env.whole.Some? then Handle(me, links, n, env.whole.value, env) else (n, []);
      (n', out + if env.raises then [] else Relay(me, links, p))
  }

  /** Each id goes to the application at most once, on whichever path it arrives. */
  ghost predicate DeliveredOnce(n: Node) {
    && (forall id :: id in n.processed <==> id in n.delivered)
    && (forall i, j :: 0 <= i < j < |n.delivered| ==> n.delivered[i] != n.delivered[j])
  }

  lemma HandleDeliversOnce(me: NodeId, links: seq<NodeId>, n: Node, p: Packet, env: Env)
    requires DeliveredOnce(n)
    ensures
      var n' := Handle(me, links, n, p, env).0;
      DeliveredOnce(n') && n.delivered <= n'.delivered
  {
  }

  lemma OnPacketDeliversOnce(me: NodeId, links: seq<NodeId>, n: Node, p: Packet, env: Env)
    requires DeliveredOnce(n)
    ensures
      var n' := OnPacket(me, links, n, p, env).0;
      DeliveredOnce(n') && n.delivered <= n'.delivered
  {
    if !p.content.Fragment? {
      HandleDeliversOnce(me, links, n, p, env);
    } else if env.whole.Some? {
      HandleDeliversOnce(me, links, n, env.whole.value, env);
    }
  }

  // ----- When a message reaches the application -----

  /** The packet that an arrival makes a node handle: its own packets are none, and a fragment stands for what it completes. */
  function Handled(me: NodeId, p: Packet, env: Env): Option<Packet> {
    if p.sender == me then None else if p.content.Fragment? then env.whole else Some(p)
  }

  /** A packet that carries a message to this node, readable, from nobody blocked, and new. */
  predicate Brings(me: NodeId, n: Node, p: Packet, env: Env, id: MessageId) {
    && (p.content == Sealed(id) || p.content == Chat(id, None) || p.content == Chat(id, Some(me)))
    && !env.blocked && env.readable && id !in n.processed
  }

  predicate DeliverGuard(me: NodeId, n: Node, p: Packet, env: Env, id: MessageId) {
    var q := Handled(me, p, env);
    q.Some? && Brings(me, n, q.value, env, id)
  }

  /** Private messages are acknowledged when they are delivered, broadcast ones if the environment asks for it. */
  predicate AckGuard(me: NodeId, n: Node, p: Packet, env: Env, id: MessageId) {
    DeliverGuard(me, n, p, env, id) && (Handled(me, p, env).value.content != Chat(id, None) || env.wantsAck)
  }

  lemma HandleDeliversWhen(me: NodeId, links: seq<NodeId>, n: Node, q: Packet, env: Env, id: MessageId)
    ensures
      var n' := Handle(me, links, n, q, env).0;
      && (Brings(me, n, q, env, id) ==> n'.delivered == n.delivered + [id])
      && (id in n'.processed <==> id in n.processed || Brings(me, n, q, env, id))
      && (id in n'.acked <==>
            id in n.acked || (Brings(me, n, q, env, id) && (q.content != Chat(id, None) || env.wantsAck)))
      && (n'.delivered == n.delivered || exists x :: Brings(me, n, q, env, x))
  {
    if n'' :| n'' == Handle(me, links, n, q, env).0 && n''.delivered != n.delivered {
      assert Brings(me, n, q, env, q.content.id);
    }
  }

  /**
   Exactly when a message reaches the application, on every path: an arrival that is not taken for the node's own, or the
   packet it completes, carries the id encrypted, to everybody or to this node, is readable and from nobody blocked, and
   the id is new. Then it is recorded and handed over, and acknowledged if it is private or the environment asks for it;
   otherwise nothing is.
   */
  lemma DeliversWhen(me: NodeId, links: seq<NodeId>, n: Node, p: Packet, env: Env, id: MessageId)
    ensures
      var n' := OnPacket(me, links, n, p, env).0;
      && (DeliverGuard(me, n, p, env, id) ==> n'.delivered == n.delivered + [id])
      && (id in n'.processed <==> id in n.processed || DeliverGuard(me, n, p, env, id))
      && (id in n'.acked <==> id in n.acked || AckGuard(me, n, p, env, id))
      && (n'.delivered == n.delivered || exists x :: DeliverGuard(me, n, p, env, x))
  {
    var q := Handled(me, p, env);
    if q.Some? {
      HandleDeliversWhen(me, links, n, q.value, env, id);
      if x :| Brings(me, n, q.value, env, x) {
        assert DeliverGuard(me, n, p, env, x);
      }
    }
  }

  // ----- The daemon object -----

  class MeshNode {
    const me: NodeId
    var connections: seq<NodeId>
    var processed: set<MessageId>
    var delivered: seq<MessageId>
    var acked: set<MessageId>
    var outbox: seq<Copy>

    ghost function View(): Node
      reads this
    {
      Node(processed, delivered, acked)
    }

    /** No id has gone to the application twice; every handler keeps this and only appends to what went there. */
    ghost predicate Valid()
      reads this
    {
      DeliveredOnce(View())
    }

    constructor (me: NodeId, connections: seq<NodeId>)
      ensures this.me == me && this.connections == connections && View() == Node({}, [], {}) && outbox == []
      ensures Valid()
    {
      this.me, this.connections := me, connections;
      processed, delivered, acked, outbox := {}, [], {}, [];
    }

    method BroadcastPacket(p: Packet)
      modifies this`outbox
      ensures outbox == old(outbox) + Broadcast(me, connections, p)
    {
      var k := 0;
      while k < |connections|
        invariant 0 <= k <= |connections|
        invariant outbox == old(outbox) + Broadcast(me, connections[..k], p)
      {
        assert Broadcast(me, connections[..k + 1], p) == Broadcast(me, connections[..k], p) + [Copy(me, connections[k], p)];
        outbox := outbox + [Copy(me, connections[k], p)];
        k := k + 1;
      }
      assert connections[..k] == connections;
    }

    method RelayPacket(p: Packet)
      modifies this`outbox
      ensures outbox == old(outbox) + Relay(me, connections, p)
    {
      if p.ttl <= 1 {
        return;
      }
      BroadcastPacket(p.(ttl := p.ttl - 1));
    }

    method SendDeliveryAck(id: MessageId, to: NodeId, env: Env)
      modifies this`acked, this`outbox
      ensures View() == SendAck(me, old(View()), id, to, env).0
      ensures outbox == old(outbox) + SendAck(me, old(View()), id, to, env).1
    {
      if id in acked {
        return;
      }
      acked := acked + {id};
      if env.route.Some? {
        outbox := outbox + [Copy(me, env.route.value, Packet(env.name, ACK_TTL, Ack(id, to)))];
      }
    }

    method HandleMessage(p: Packet, env: Env)
      requires Valid() && p.content.Chat?
      modifies this`processed, this`delivered, this`acked, this`outbox
      ensures View() == HandleChat(me, connections, old(View()), p, env).0
      ensures outbox == old(outbox) + HandleChat(me, connections, old(View()), p, env).1
      ensures Valid() && old(delivered) <= delivered
    {
      HandleDeliversOnce(me, connections, View(), p, env);
      var id, recipient := p.content.id, p.content.recipient;
      if env.blocked {
        return;
      }
      if recipient.Some? && recipient.value != me {
        RelayPacket(p);
        return;
      }
      if env.readable && id !in processed {
        processed := processed + {id};
        delivered := delivered + [id];
        if recipient.Some? || env.wantsAck {
          SendDeliveryAck(id, p.sender, env);
        }
        RelayPacket(p);
      }
    }

    method HandleEncrypted(p: Packet, env: Env)
      requires Valid() && p.content.Sealed?
      modifies this`processed, this`delivered, this`acked, this`outbox
      ensures View() == HandleSealed(me, old(View()), p, env).0
      ensures outbox == old(outbox) + HandleSealed(me, old(View()), p, env).1
      ensures Valid() && old(delivered) <= delivered
    {
      HandleDeliversOnce(me, connections, View(), p, env);
      if !env.blocked && env.readable && p.content.id !in processed {
        processed := processed + {p.content.id};
        delivered := delivered + [p.content.id];
        SendDeliveryAck(p.content.id, p.sender, env);
      }
    }

    method HandleInternal(p: Packet, env: Env)
      requires Valid()
      modifies this`processed, this`delivered, this`acked, this`outbox
      ensures View() == Handle(me, connections, old(View()), p, env).0
      ensures outbox == old(outbox) + Handle(me, connections, old(View()), p, env).1
      ensures Valid() && old(delivered) <= delivered
    {
      match p.content
      case Chat(_, _) => HandleMessage(p, env);
      case Leave => RelayPacket(p);
      case Sealed(_) => HandleEncrypted(p, env);
      case Ack(_, addressee) =>
        if addressee != me {
          RelayPacket(p);
        }
      case Fragment(_) =>
    }

    /** The whole dispatch keeps at-most-once delivery and sends exactly what the specification says. */
    method OnPacketReceived(p: Packet, env: Env)
      requires Valid()
      modifies this`processed, this`delivered, this`acked, this`outbox
      ensures View() == OnPacket(me, connections, old(View()), p, env).0
      ensures outbox == old(outbox) + OnPacket(me, connections, old(View()), p, env).1
      ensures Valid() && old(delivered) <= delivered
      ensures forall id :: DeliverGuard(me, old(View()), p, env, id) ==> delivered == old(delivered) + [id]
      ensures delivered == old(delivered) || exists id :: DeliverGuard(me, old(View()), p, env, id)
    {
      forall id {
        DeliversWhen(me, connections, View(), p, env, id);
      }
      if p.sender == me {
        return;
      }
      if !p.content.Fragment? {
        HandleInternal(p, env);
      } else {
        if env.whole.Some? {
          HandleInternal(env.whole.value, env);
        }
        if !env.raises {
          RelayPacket(p);
        }
      }
    }
  }
}
