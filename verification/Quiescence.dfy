/**
 Relay traffic dies out. Fragments, leaves and acknowledgements are relayed without duplicate suppression, a completed
 fragment injects a packet with a fresh TTL, and a first receipt creates an acknowledgement; still no run without new
 transmissions goes on forever.
 */
module Quiescence {
  import opened Outcomes
  import opened Flood
  import opened Mesh
  import opened Network

  /** Three classes of packets, from the one that can spawn the others down. */
  datatype Class = Fragments | Messages | Acks

  function ClassOf(c: Content): Class {
    match c
    case Fragment(_) => Fragments
    case Ack(_, _) => Acks
    case _ => Messages
  }

  function Power(base: nat, n: nat): nat {
    if n == 0 then 1 else base * Power(base, n - 1)
  }

  /** The weight of a class in flight: (degree + 1) to the TTL, summed over its packets. */
  function Weight(cs: seq<Copy>, kind: Class, degree: nat): nat {
    if cs == [] then 0
    else
      (if ClassOf(cs[0].packet.content) == kind then Power(degree + 1, cs[0].packet.ttl) else 0)
      + Weight(cs[1..], kind, degree)
  }

  lemma {:induction false} WeightConcat(a: seq<Copy>, b: seq<Copy>, kind: Class, degree: nat)
    ensures Weight(a + b, kind, degree) == Weight(a, kind, degree) + Weight(b, kind, degree)
  {
    if a == [] {
      assert a + b == b;
    } else {
      assert (a + b)[0] == a[0] && (a + b)[1..] == a[1..] + b;
      WeightConcat(a[1..], b, kind, degree);
    }
  }

  lemma WeightWithout(cs: seq<Copy>, i: nat, kind: Class, degree: nat)
    requires i < |cs|
    ensures Weight(Without(cs, i), kind, degree) + Weight([cs[i]], kind, degree) == Weight(cs, kind, degree)
  {
    assert cs == cs[..i] + ([cs[i]] + cs[i + 1..]);
    WeightConcat(cs[..i], [cs[i]] + cs[i + 1..], kind, degree);
    WeightConcat([cs[i]], cs[i + 1..], kind, degree);
    WeightConcat(cs[..i], cs[i + 1..], kind, degree);
  }

  lemma {:induction false} WeightNone(cs: seq<Copy>, kind: Class, degree: nat)
    requires forall c :: c in cs ==> ClassOf(c.packet.content) != kind
    ensures Weight(cs, kind, degree) == 0
  {
    if cs != [] {
      WeightNone(cs[1..], kind, degree);
    }
  }

  lemma {:induction false} WeightOfBroadcast(me: NodeId, links: seq<NodeId>, p: Packet, degree: nat)
    ensures Weight(Broadcast(me, links, p), ClassOf(p.content), degree) == |links| * Power(degree + 1, p.ttl)
    decreases |links|
  {
    if links != [] {
      var cs := Broadcast(me, links, p);
      assert cs[1..] == Broadcast(me, links[1..], p) && cs[0] == Copy(me, links[0], p);
      WeightOfBroadcast(me, links[1..], p, degree);
      var w := Power(degree + 1, p.ttl);
      assert |links| * w == w + (|links| - 1) * w;
    }
  }

  lemma {:induction false} PowerPositive(base: nat, n: nat)
    requires base >= 1
    ensures Power(base, n) >= 1
  {
    if n > 0 {
      PowerPositive(base, n - 1);
      assert base * Power(base, n - 1) >= 1 * Power(base, n - 1);
    }
  }

  /** Relaying to at most `degree` connections with the TTL decremented weighs less than the packet relayed. */
  lemma RelayWeighsLess(me: NodeId, links: seq<NodeId>, p: Packet, degree: nat)
    requires |links| <= degree
    ensures Weight(Relay(me, links, p), ClassOf(p.content), degree) < Power(degree + 1, p.ttl)
  {
    PowerPositive(degree + 1, p.ttl);
    if p.ttl > 1 {
      WeightOfBroadcast(me, links, p.(ttl := p.ttl - 1), degree);
      PowerPositive(degree + 1, p.ttl - 1);
      FewerCopies(|links|, degree, Power(degree + 1, p.ttl - 1));
    }
  }

  lemma FewerCopies(n: nat, degree: nat, w: nat)
    requires n <= degree && w >= 1
    ensures n * w < (degree + 1) * w
  {
    assert (degree + 1) * w == n * w + (degree + 1 - n) * w;
  }

  /** Acknowledgements are all that a first receipt adds to the relay. */
  lemma ChatWeighsLess(me: NodeId, links: seq<NodeId>, n: Node, p: Packet, env: Env, degree: nat)
    requires |links| <= degree && p.content.Chat?
    ensures Weight(HandleChat(me, links, n, p, env).1, Messages, degree) < Power(degree + 1, p.ttl)
  {
    var id := p.content.id;
    var relay := Relay(me, links, p);
    RelayWeighsLess(me, links, p, degree);
    PowerPositive(degree + 1, p.ttl);
    var ack := SendAck(me, Mesh.Deliver(n, id), id, p.sender, env).1;
    WeightNone(ack, Messages, degree);
    WeightConcat(ack, relay, Messages, degree);
    assert [] + relay == relay;
  }

  /** A handled packet outweighs, in its own class, everything its handler sends; higher classes get nothing. */
  lemma HandleWeighsLess(me: NodeId, links: seq<NodeId>, n: Node, p: Packet, env: Env, degree: nat)
    requires |links| <= degree
    ensures
      var out := Handle(me, links, n, p, env).1;
      && Weight(out, Fragments, degree) == 0
      && (!p.content.Fragment? ==> Weight(out, ClassOf(p.content), degree) < Power(degree + 1, p.ttl))
      && (p.content.Ack? ==> Weight(out, Messages, degree) == 0)
  {
    var out := Handle(me, links, n, p, env).1;
    RelayWeighsLess(me, links, p, degree);
    PowerPositive(degree + 1, p.ttl);
    assert forall c :: c in Relay(me, links, p) ==> c.packet.content == p.content;
    WeightNone(out, Fragments, degree);
    match p.content
    case Chat(_, _) => ChatWeighsLess(me, links, n, p, env, degree);
    case Sealed(_) => WeightNone(out, Messages, degree);
    case Ack(_, _) => WeightNone(out, Messages, degree);
    case _ =>
  }

  /** The lexicographic measure of a network, by class. */
  ghost predicate Below(a: seq<Copy>, b: seq<Copy>, degree: nat) {
    var f, f' := Weight(a, Fragments, degree), Weight(b, Fragments, degree);
    var m, m' := Weight(a, Messages, degree), Weight(b, Messages, degree);
    f < f' || (f == f' && (m < m' || (m == m' && Weight(a, Acks, degree) < Weight(b, Acks, degree))))
  }

  /** At one node: what goes out is below the one packet that came in. */
  lemma OnPacketBelow(me: NodeId, links: seq<NodeId>, n: Node, c: Copy, env: Env, degree: nat)
    requires |links| <= degree
    ensures Below(OnPacket(me, links, n, c.packet, env).1, [c], degree)
  {
    var p := c.packet;
    var out := OnPacket(me, links, n, p, env).1;
    PowerPositive(degree + 1, p.ttl);
    assert Weight([c], ClassOf(p.content), degree) == Power(degree + 1, p.ttl);
    if p.content.Fragment? {
      var inner := if env.whole.Some? then Handle(me, links, n, env.whole.value, env).1 else [];
      if env.whole.Some? {
        HandleWeighsLess(me, links, n, env.whole.value, env, degree);
      }
      RelayWeighsLess(me, links, p, degree);
      var relay := if env.raises then [] else Relay(me, links, p);
      WeightConcat(inner, relay, Fragments, degree);
    } else {
      HandleWeighsLess(me, links, n, p, env, degree);
      assert Weight([c], Fragments, degree) == 0;
    }
  }

  /** Every arrival or loss strictly decreases the measure, in a network whose nodes have at most `degree` connections. */
  lemma ArrivalDecreases(top: Topology, s: Net, a: Action, degree: nat)
    requires Enabled(top, s, a) && (a.Arrive? || a.Lose?)
    requires forall v :: v in top ==> |top[v]| <= degree
    ensures Below(Next(top, s, a).flight, s.flight, degree)
  {
    var c := s.flight[a.index];
    var out := if a.Arrive? then OnPacket(c.dst, top[c.dst], s.nodes[c.dst], c.packet, a.env).1 else [];
    if a.Arrive? {
      OnPacketBelow(c.dst, top[c.dst], s.nodes[c.dst], c, a.env, degree);
    } else {
      PowerPositive(degree + 1, c.packet.ttl);
      assert Below([], [c], degree);
    }
    var rest := Without(s.flight, a.index);
    assert Next(top, s, a).flight == rest + out;
    forall k: Class
      ensures Weight(rest + out, k, degree) == Weight(s.flight, k, degree) - Weight([c], k, degree) + Weight(out, k, degree)
    {
      WeightWithout(s.flight, a.index, k, degree);
      WeightConcat(rest, out, k, degree);
    }
  }

  /**
   No infinite run consists of arrivals and losses only: in any infinite sequence of states, from any point on, there is
   a place where the next state is not the result of an arrival or a loss.
   */
  lemma {:induction false} RelayTermination(top: Topology, run: nat -> Net, acts: nat -> Action, degree: nat, start: nat)
    requires forall v :: v in top ==> |top[v]| <= degree
    ensures exists i :: i >= start && !Continues(top, run, acts, i)
    decreases Weight(run(start).flight, Fragments, degree), Weight(run(start).flight, Messages, degree),
              Weight(run(start).flight, Acks, degree)
  {
    if Continues(top, run, acts, start) {
      ArrivalDecreases(top, run(start), acts(start), degree);
      RelayTermination(top, run, acts, degree, start + 1);
    }
  }

  ghost predicate Continues(top: Topology, run: nat -> Net, acts: nat -> Action, i: nat) {
    (acts(i).Arrive? || acts(i).Lose?) && Enabled(top, run(i), acts(i)) && run(i + 1) == Next(top, run(i), acts(i))
  }
}
