/**
 The flood theorems, carried over to one broadcast message inside arbitrary traffic. Receivers read the sender off the
 packet: it is the author's id, or nobody's when that id ends in a zero byte (`PeerIds`). In the second case the author
 does not recognise its own packets and is flooded through as any other node. Both cases are floods from the sender that
 is read: it is given the author's connections, and when it is nobody's id it is one node more, which nobody connects to.
 */
module NetworkTheorems {
  import opened Outcomes
  import opened Flood
  import opened FloodTheorems
  import opened Coverage
  import opened Mesh
  import opened Network

  /** The sender that receivers read is the author itself or no node. */
  ghost predicate ReadSender(top: Topology, origin: NodeId, from: NodeId) {
    origin in top && (from == origin || from !in top)
  }

  /** The network as seen from the sender that is read. */
  function Rooted(top: Topology, origin: NodeId, from: NodeId): Topology
    requires origin in top
  {
    top[from := top[origin]]
  }

  lemma RootedValid(top: Topology, origin: NodeId, from: NodeId)
    requires ValidTopology(top) && ReadSender(top, origin, from)
    ensures ValidTopology(Rooted(top, origin, from)) && (from == origin ==> Rooted(top, origin, from) == top)
    ensures forall v :: v in top ==> v in Rooted(top, origin, from) && Rooted(top, origin, from)[v] == top[v]
  {
  }

  /** The author's own transmission, which alone has the full TTL, counts as the transmission of the sender that is read. */
  function Named(h: Hop, origin: NodeId, from: NodeId): Hop {
    if h.src == origin && h.ttl == INITIAL_TTL then Hop(from, h.dst, h.ttl) else h
  }

  function AllNamed(hs: seq<Hop>, origin: NodeId, from: NodeId): seq<Hop> {
    seq(|hs|, i requires 0 <= i < |hs| => Named(hs[i], origin, from))
  }

  ghost function Project(s: Net, m: MessageId, origin: NodeId, from: NodeId): State {
    State(AllNamed(Hops(s.flight, m), origin, from), AllNamed(Hops(s.log, m), origin, from), HaveSeen(s.nodes, m))
  }

  lemma NamedConcat(a: seq<Hop>, b: seq<Hop>, origin: NodeId, from: NodeId)
    ensures AllNamed(a + b, origin, from) == AllNamed(a, origin, from) + AllNamed(b, origin, from)
  {
  }

  lemma NamedWithout(hs: seq<Hop>, k: nat, origin: NodeId, from: NodeId)
    requires k < |hs|
    ensures AllNamed(hs[..k] + hs[k + 1..], origin, from)
         == AllNamed(hs, origin, from)[..k] + AllNamed(hs, origin, from)[k + 1..]
  {
  }

  /** Whether an action hands a copy of the broadcast to a receiver that can read it. */
  ghost predicate Accepts(a: Action) {
    a.Arrive? && !a.env.blocked && a.env.readable
  }

  ghost predicate Touches(s: Net, a: Action, m: MessageId) {
    (a.Arrive? || a.Lose?) && a.index < |s.flight| && IsCopy(s.flight[a.index], m)
  }

  /** Where the projection puts the copy that an action takes out of flight. */
  ghost function Place(s: Net, a: Action, m: MessageId): nat
    requires Touches(s, a, m)
  {
    |Hops(s.flight[..a.index], m)|
  }

  lemma OnlyFloodKept(top: Topology, s: Net, a: Action, m: MessageId, from: NodeId)
    requires ValidTopology(top) && ValidNet(top, s) && Enabled(top, s, a)
    requires OnlyFlood(s, m, from) && Network.Fresh(a, m)
    ensures OnlyFlood(Next(top, s, a), m, from)
  {
    if a.Arrive? {
      var c := s.flight[a.index];
      if Carries(c.packet, m) {
        FloodTraffic(c.dst, top[c.dst], s.nodes[c.dst], c.packet, a.env, m);
      } else {
        OtherTraffic(c.dst, top[c.dst], s.nodes[c.dst], c.packet, a.env, m);
      }
    }
  }

  /** An action on other traffic does not show in the projection. */
  lemma OtherStutters(top: Topology, s: Net, a: Action, m: MessageId, origin: NodeId, from: NodeId)
    requires ValidTopology(top) && ValidNet(top, s) && Enabled(top, s, a)
    requires OnlyFlood(s, m, from) && Network.Fresh(a, m) && !Touches(s, a, m)
    ensures Project(Next(top, s, a), m, origin, from) == Project(s, m, origin, from)
  {
    match a
    case Send(src, p) => EmitOther(s, Broadcast(src, top[src], p), m, origin, from);
    case SendTo(src, dst, p) => EmitOther(s, [Copy(src, dst, p)], m, origin, from);
    case Lose(i) => HopsWithout(s.flight, i, m);
    case Arrive(i, env) =>
      var c := s.flight[i];
      HopsWithout(s.flight, i, m);
      OtherTraffic(c.dst, top[c.dst], s.nodes[c.dst], c.packet, env, m);
      var (n, out) := OnPacket(c.dst, top[c.dst], s.nodes[c.dst], c.packet, env);
      var mid := s.(nodes := s.nodes[c.dst := n], flight := Without(s.flight, i));
      EmitOther(mid, out, m, origin, from);
      SeenAfter(s, c.dst, n, m);
  }

  lemma EmitOther(s: Net, out: seq<Copy>, m: MessageId, origin: NodeId, from: NodeId)
    requires forall c :: c in out ==> !Carries(c.packet, m)
    ensures Project(Emit(s, out), m, origin, from) == Project(s, m, origin, from)
  {
    HopsNone(out, m);
    HopsConcat(s.flight, out, m);
    HopsConcat(s.log, out, m);
    assert Hops(s.flight, m) + [] == Hops(s.flight, m) && Hops(s.log, m) + [] == Hops(s.log, m);
  }

  /** An action on a copy of the broadcast is a step of the flood. */
  lemma CopySteps(top: Topology, s: Net, a: Action, m: MessageId, origin: NodeId, from: NodeId)
    requires ValidTopology(top) && ReadSender(top, origin, from) && ValidNet(top, s) && Enabled(top, s, a)
    requires OnlyFlood(s, m, from) && Touches(s, a, m)
    ensures Takes(Rooted(top, origin, from), from, Project(s, m, origin, from), Delivery(Place(s, a, m), Accepts(a)),
                  Project(Next(top, s, a), m, origin, from))
  {
    TakenOut(s, a.index, m, origin, from);
    if a.Arrive? {
      ArrivalSteps(top, s, a.index, a.env, m, origin, from);
    }
  }

  /** What a node sends on is appended, under its own name, to the flight and to the log. */
  lemma EmitNamed(s: Net, out: seq<Copy>, m: MessageId, origin: NodeId, from: NodeId)
    requires AllNamed(Hops(out, m), origin, from) == Hops(out, m)
    ensures
      var f := Project(s, m, origin, from);
      Project(Emit(s, out), m, origin, from) == f.(flight := f.flight + Hops(out, m), log := f.log + Hops(out, m))
  {
    HopsConcat(s.flight, out, m);
    HopsConcat(s.log, out, m);
    NamedConcat(Hops(s.flight, m), Hops(out, m), origin, from);
    NamedConcat(Hops(s.log, m), Hops(out, m), origin, from);
  }

  lemma ArrivalSteps(top: Topology, s: Net, i: nat, env: Env, m: MessageId, origin: NodeId, from: NodeId)
    requires ValidTopology(top) && ReadSender(top, origin, from) && ValidNet(top, s) && Enabled(top, s, Arrive(i, env))
    requires IsCopy(s.flight[i], m) && s.flight[i].packet.sender == from && s.flight[i].packet.ttl <= INITIAL_TTL
    ensures
      var k, f := |Hops(s.flight[..i], m)|, Project(s, m, origin, from);
      && k < |f.flight| && f.flight[k].dst in Rooted(top, origin, from)
      && Project(Next(top, s, Arrive(i, env)), m, origin, from)
         == Step(Rooted(top, origin, from), from, f, k, !env.blocked && env.readable)
  {
    var c, k, f := s.flight[i], |Hops(s.flight[..i], m)|, Project(s, m, origin, from);
    var (n, out) := OnPacket(c.dst, top[c.dst], s.nodes[c.dst], c.packet, env);
    var mid := s.(nodes := s.nodes[c.dst := n], flight := Without(s.flight, i));
    TakenOut(s, i, m, origin, from);
    ArrivalSends(c.dst, top[c.dst], s, c.packet, env, m, origin, from);
    EmitNamed(mid, out, m, origin, from);
    ArrivalIsStep(top, origin, from, f, k, !env.blocked && env.readable, Hops(out, m), HaveSeen(mid.nodes, m));
  }

  /** The copy that an action takes out of flight, in the projection. */
  lemma TakenOut(s: Net, i: nat, m: MessageId, origin: NodeId, from: NodeId)
    requires i < |s.flight| && IsCopy(s.flight[i], m)
    ensures
      var k, f, c := |Hops(s.flight[..i], m)|, Project(s, m, origin, from), s.flight[i];
      && k < |f.flight| && f.flight[k].dst == c.dst && f.flight[k].ttl == c.packet.ttl
      && AllNamed(Hops(Without(s.flight, i), m), origin, from) == f.flight[..k] + f.flight[k + 1..]
  {
    HopsWithout(s.flight, i, m);
    NamedWithout(Hops(s.flight, m), |Hops(s.flight[..i], m)|, origin, from);
  }

  /** What the receiver of a copy sends on and who has the message afterwards. */
  lemma ArrivalSends(v: NodeId, links: seq<NodeId>, s: Net, p: Packet, env: Env, m: MessageId, origin: NodeId, from: NodeId)
    requires v in s.nodes && p.content == Chat(m, None) && p.sender == from && p.ttl <= INITIAL_TTL
    ensures
      var (n, out) := OnPacket(v, links, s.nodes[v], p, env);
      var first := v != from && !env.blocked && env.readable && v !in HaveSeen(s.nodes, m);
      && Hops(out, m) == (if first && p.ttl > 1 then FanOut(v, links, p.ttl - 1) else [])
      && AllNamed(Hops(out, m), origin, from) == Hops(out, m)
      && HaveSeen(s.nodes[v := n], m) == if first then HaveSeen(s.nodes, m) + {v} else HaveSeen(s.nodes, m)
  {
    FloodTraffic(v, links, s.nodes[v], p, env, m);
    SeenAfter(s, v, OnPacket(v, links, s.nodes[v], p, env).0, m);
  }

  /** The relays and the nodes that have the message, put together as the flood does. */
  lemma ArrivalIsStep(top: Topology, origin: NodeId, from: NodeId, f: State, k: nat, accepted: bool, hops: seq<Hop>,
                      seen: set<NodeId>)
    requires ValidTopology(top) && ReadSender(top, origin, from) && k < |f.flight| && f.flight[k].dst in top
    requires
      var h := f.flight[k];
      var first := h.dst != from && accepted && h.dst !in f.seen;
      && seen == (if first then f.seen + {h.dst} else f.seen)
      && hops == if first && h.ttl > 1 then FanOut(h.dst, top[h.dst], h.ttl - 1) else []
    ensures State(f.flight[..k] + f.flight[k + 1..] + hops, f.log + hops, seen)
         == Step(Rooted(top, origin, from), from, f, k, accepted)
  {
    RootedValid(top, origin, from);
    assert f.log + [] == f.log && f.flight[..k] + f.flight[k + 1..] + [] == f.flight[..k] + f.flight[k + 1..];
  }

  lemma SeenAfter(s: Net, v: NodeId, n: Node, m: MessageId)
    requires v in s.nodes
    ensures
      var before, after := HaveSeen(s.nodes, m), HaveSeen(s.nodes[v := n], m);
      && (m in n.processed ==> after == before + {v})
      && (m in n.processed <==> v in after) && (m in s.nodes[v].processed <==> v in before)
      && (m !in n.processed && m !in s.nodes[v].processed ==> after == before)
  {
  }

  /** Id `m` is unknown to a network: nothing processed it and nothing sent so far carries it. */
  ghost predicate Unknown(s: Net, m: MessageId) {
    && (forall v :: v in s.nodes ==> m !in s.nodes[v].processed)
    && (forall c :: c in s.flight || c in s.log ==> !Carries(c.packet, m))
  }

  /**
   A run in which `origin` broadcasts a new message as its first action and nobody else ever sends that id; receivers
   read `from` as its sender.
   */
  ghost predicate BroadcastRun(top: Topology, states: seq<Net>, acts: seq<Action>, m: MessageId, origin: NodeId, from: NodeId) {
    && Trace(top, states, acts) && Unknown(states[0], m) && ReadSender(top, origin, from)
    && |acts| >= 1 && acts[0] == Send(origin, Packet(from, INITIAL_TTL, Chat(m, None)))
    && forall i :: 1 <= i < |acts| ==> Network.Fresh(acts[i], m)
  }

  /** The deliveries of the flood that a run performs. */
  ghost function Deliveries(states: seq<Net>, acts: seq<Action>, m: MessageId, k: nat): seq<Delivery>
    requires |states| == |acts| + 1 && 1 <= k <= |acts|
  {
    if k == 1 then []
    else
      Deliveries(states, acts, m, k - 1) +
      if Touches(states[k - 1], acts[k - 1], m)
      then [Delivery(Place(states[k - 1], acts[k - 1], m), Accepts(acts[k - 1]))] else []
  }

  /** The first action of such a run is the start of the flood. */
  lemma RefinesStart(top: Topology, s: Net, m: MessageId, origin: NodeId, from: NodeId)
    requires ValidTopology(top) && ReadSender(top, origin, from) && Unknown(s, m)
    ensures
      var s' := Next(top, s, Send(origin, Packet(from, INITIAL_TTL, Chat(m, None))));
      && OnlyFlood(s', m, from)
      && Project(s', m, origin, from) == Flood.Start(Rooted(top, origin, from), from, INITIAL_TTL)
  {
    var p := Packet(from, INITIAL_TTL, Chat(m, None));
    var s' := Next(top, s, Send(origin, p));
    HopsNone(s.flight, m);
    HopsNone(s.log, m);
    HopsConcat(s.flight, Broadcast(origin, top[origin], p), m);
    HopsConcat(s.log, Broadcast(origin, top[origin], p), m);
    HopsOfBroadcast(origin, top[origin], p, m);
    assert AllNamed(FanOut(origin, top[origin], INITIAL_TTL), origin, from) == FanOut(from, top[origin], INITIAL_TTL);
    assert HaveSeen(s'.nodes, m) == {};
  }

  /** Refinement: seen through the projection, every such run is a run of the flood from the sender that is read. */
  lemma {:induction false} Refines(top: Topology, states: seq<Net>, acts: seq<Action>, m: MessageId, origin: NodeId,
                                   from: NodeId, k: nat)
    requires BroadcastRun(top, states, acts, m, origin, from) && 1 <= k <= |acts|
    ensures OnlyFlood(states[k], m, from)
    ensures Reaches(Rooted(top, origin, from), from, INITIAL_TTL, Deliveries(states, acts, m, k),
                    Project(states[k], m, origin, from))
    decreases k
  {
    if k == 1 {
      RefinesStart(top, states[0], m, origin, from);
    } else {
      Refines(top, states, acts, m, origin, from, k - 1);
      TraceValid(top, states, acts, k - 1);
      var s, a := states[k - 1], acts[k - 1];
      OnlyFloodKept(top, s, a, m, from);
      var ds := Deliveries(states, acts, m, k - 1);
      if Touches(s, a, m) {
        CopySteps(top, s, a, m, origin, from);
        Extend(Rooted(top, origin, from), from, INITIAL_TTL, ds, Project(s, m, origin, from),
               Delivery(Place(s, a, m), Accepts(a)), Project(states[k], m, origin, from));
      } else {
        OtherStutters(top, s, a, m, origin, from);
        assert ds + [] == ds;
      }
    }
  }

  /** Nothing that carries the message is lost, unreadable or from a blocked sender. */
  ghost predicate Reliable(states: seq<Net>, acts: seq<Action>, m: MessageId)
    requires |states| == |acts| + 1
  {
    forall i :: 1 <= i < |acts| && Touches(states[i], acts[i], m) ==> Accepts(acts[i])
  }

  lemma {:induction false} ReliableAccepted(states: seq<Net>, acts: seq<Action>, m: MessageId, k: nat)
    requires |states| == |acts| + 1 && 1 <= k <= |acts| && Reliable(states, acts, m)
    ensures forall d :: d in Deliveries(states, acts, m, k) ==> d.accepted
    decreases k
  {
    if k > 1 {
      ReliableAccepted(states, acts, m, k - 1);
    }
  }

  // ----- Locality -----

  /** A walk from the sender that is read is a walk from the author. */
  lemma WalkFromAuthor(top: Topology, origin: NodeId, from: NodeId, v: NodeId, w: seq<NodeId>)
    requires ValidTopology(top) && ReadSender(top, origin, from) && |w| >= 2
    requires WalkBetween(Rooted(top, origin, from), from, v, w)
    ensures WalkBetween(top, origin, v, w[0 := origin])
  {
    var w' := w[0 := origin];
    forall i | 0 <= i < |w'| - 1
      ensures w'[i] in top && w'[i + 1] in top[w'[i]]
    {
      if i > 0 {
        assert w[i - 1 + 1] in Rooted(top, origin, from)[w[i - 1]];
      }
    }
  }

  /** Conversely, for a walk that leaves the author for good. */
  lemma WalkFromSender(top: Topology, origin: NodeId, from: NodeId, v: NodeId, w: seq<NodeId>)
    requires ValidTopology(top) && ReadSender(top, origin, from) && WalkBetween(top, origin, v, w) && |w| >= 2
    ensures WalkBetween(Rooted(top, origin, from), from, v, w[0 := from])
  {
    RootedValid(top, origin, from);
  }

  lemma {:induction false} NamedIn(hs: seq<Hop>, h: Hop, origin: NodeId, from: NodeId)
    requires h in hs
    ensures Named(h, origin, from) in AllNamed(hs, origin, from)
  {
    var i :| 0 <= i < |hs| && hs[i] == h;
    assert AllNamed(hs, origin, from)[i] == Named(h, origin, from);
  }

  /** A copy in flight with TTL t ends a walk of exactly INITIAL_TTL + 1 - t links from the origin. */
  lemma CopiesTravelWalks(top: Topology, states: seq<Net>, acts: seq<Action>, m: MessageId, origin: NodeId, from: NodeId,
                          k: nat, c: Copy)
    requires BroadcastRun(top, states, acts, m, origin, from) && 1 <= k <= |acts|
    requires c in states[k].flight && IsCopy(c, m)
    ensures exists w :: WalkBetween(top, origin, c.dst, w) && |w| - 1 == INITIAL_TTL + 1 - c.packet.ttl
    ensures 1 <= c.packet.ttl <= INITIAL_TTL
  {
    var net, f := Rooted(top, origin, from), Project(states[k], m, origin, from);
    Refines(top, states, acts, m, origin, from, k);
    RootedValid(top, origin, from);
    ReachableInv(net, from, INITIAL_TTL, Deliveries(states, acts, m, k), f);
    HopsContain(states[k].flight, c, m);
    var h := Hop(c.src, c.dst, c.packet.ttl);
    NamedIn(Hops(states[k].flight, m), h, origin, from);
    assert Sent(f, Named(h, origin, from));
    var w := HopLocality(net, from, INITIAL_TTL, f, Named(h, origin, from));
    WalkFromAuthor(top, origin, from, c.dst, w);
  }

  /**
   Locality: only nodes at most INITIAL_TTL links away from the origin ever process the message, and the origin only if
   its id is not the sender that is read.
   */
  lemma BroadcastLocality(top: Topology, states: seq<Net>, acts: seq<Action>, m: MessageId, origin: NodeId, from: NodeId,
                          v: NodeId)
    requires BroadcastRun(top, states, acts, m, origin, from)
    requires v in states[|acts|].nodes && m in states[|acts|].nodes[v].processed
    ensures v != from && exists w :: WalkBetween(top, origin, v, w) && 1 <= |w| - 1 <= INITIAL_TTL
  {
    var net, f := Rooted(top, origin, from), Project(states[|acts|], m, origin, from);
    var ds := Deliveries(states, acts, m, |acts|);
    Refines(top, states, acts, m, origin, from, |acts|);
    RootedValid(top, origin, from);
    assert v in f.seen;
    SeenWithinReach(net, from, INITIAL_TTL, ds, f, v);
    ReachableInv(net, from, INITIAL_TTL, ds, f);
    assert NodeOk(net, from, f, v);
    var w :| WalkBetween(net, from, v, w) && 1 <= |w| - 1 <= INITIAL_TTL;
    WalkFromAuthor(top, origin, from, v, w);
  }

  // ----- Coverage -----

  /** A reliable run, from a network in which no node delivered an id twice, with no copy of the message left in flight. */
  ghost predicate FinishedRun(top: Topology, states: seq<Net>, acts: seq<Action>, m: MessageId, origin: NodeId, from: NodeId) {
    && BroadcastRun(top, states, acts, m, origin, from) && Reliable(states, acts, m) && AllOnce(states[0])
    && forall c :: c in states[|acts|].flight ==> !IsCopy(c, m)
  }

  /** The nodes whose application has been given the message. */
  ghost function Reached(s: Net, m: MessageId): set<NodeId> {
    set v | v in s.nodes && m in s.nodes[v].delivered
  }

  lemma FinishedRefines(top: Topology, states: seq<Net>, acts: seq<Action>, m: MessageId, origin: NodeId, from: NodeId)
    requires FinishedRun(top, states, acts, m, origin, from)
    ensures ValidTopology(Rooted(top, origin, from))
    ensures Finished(Rooted(top, origin, from), from, INITIAL_TTL, Deliveries(states, acts, m, |acts|),
                     Project(states[|acts|], m, origin, from))
    ensures Project(states[|acts|], m, origin, from).seen == Reached(states[|acts|], m)
  {
    RootedValid(top, origin, from);
    Refines(top, states, acts, m, origin, from, |acts|);
    ReliableAccepted(states, acts, m, |acts|);
    HopsNone(states[|acts|].flight, m);
    AtMostOnceDelivery(top, states, acts, |acts|);
  }

  // Every loss-free run of the flood is performed by some network.

  const QUIET: Env := Env(false, true, false, None, None, false, 0)

  ghost predicate OnlyCopies(top: Topology, s: Net, m: MessageId, from: NodeId) {
    && (forall c :: c in s.flight ==> IsCopy(c, m) && c.packet.sender == from && c.packet.ttl <= INITIAL_TTL)
    && (forall c :: c in s.log ==> IsCopy(c, m) && c.src in top)
  }

  lemma {:induction false} AllHops(cs: seq<Copy>, m: MessageId)
    requires forall c :: c in cs ==> IsCopy(c, m)
    ensures |Hops(cs, m)| == |cs|
    ensures forall i :: 0 <= i < |cs| ==> Hops(cs, m)[i] == Hop(cs[i].src, cs[i].dst, cs[i].packet.ttl)
  {
    if cs != [] {
      AllHops(cs[1..], m);
    }
  }

  /** A reliable run of the broadcast, on a network without other traffic, that performs the flood up to `f`. */
  ghost predicate Performs(top: Topology, states: seq<Net>, acts: seq<Action>, m: MessageId, origin: NodeId, from: NodeId,
                           f: State) {
    && BroadcastRun(top, states, acts, m, origin, from) && Reliable(states, acts, m) && AllOnce(states[0])
    && Project(states[|acts|], m, origin, from) == f && OnlyCopies(top, states[|acts|], m, from)
  }

  lemma TraceExtend(top: Topology, states: seq<Net>, acts: seq<Action>, a: Action)
    requires Trace(top, states, acts) && Enabled(top, states[|acts|], a)
    ensures Trace(top, states + [Next(top, states[|acts|], a)], acts + [a])
  {
  }

  lemma ReliableExtend(states: seq<Net>, acts: seq<Action>, s: Net, a: Action, m: MessageId)
    requires |states| == |acts| + 1 && Reliable(states, acts, m) && Accepts(a)
    ensures Reliable(states + [s], acts + [a], m)
  {
  }

  lemma PerformsOneMore(top: Topology, states: seq<Net>, acts: seq<Action>, m: MessageId, origin: NodeId, from: NodeId,
                        f: State, i: nat, f': State)
    requires Performs(top, states, acts, m, origin, from, f) && Enabled(top, states[|acts|], Arrive(i, QUIET))
    requires
      var s' := Next(top, states[|acts|], Arrive(i, QUIET));
      Project(s', m, origin, from) == f' && OnlyCopies(top, s', m, from)
    ensures Performs(top, states + [Next(top, states[|acts|], Arrive(i, QUIET))], acts + [Arrive(i, QUIET)], m, origin,
                     from, f')
  {
    var a := Arrive(i, QUIET);
    var states', acts' := states + [Next(top, states[|acts|], a)], acts + [a];
    TraceExtend(top, states, acts, a);
    ReliableExtend(states, acts, states'[|acts'|], a, m);
    assert Network.Fresh(a, m);
  }

  /** One delivery of the flood, performed in a network that holds nothing but copies of the message. */
  lemma PerformOne(top: Topology, s: Net, i: nat, m: MessageId, origin: NodeId, from: NodeId)
    requires ValidTopology(top) && ReadSender(top, origin, from) && ValidNet(top, s) && OnlyCopies(top, s, m, from)
    requires i < |Project(s, m, origin, from).flight|
    ensures
      var f, a := Project(s, m, origin, from), Arrive(i, QUIET);
      && Enabled(top, s, a) && Touches(s, a, m) && f.flight[i].dst in Rooted(top, origin, from)
      && Project(Next(top, s, a), m, origin, from) == Step(Rooted(top, origin, from), from, f, i, true)
      && OnlyCopies(top, Next(top, s, a), m, from)
  {
    AllHops(s.flight, m);
    AllHops(s.flight[..i], m);
    ArrivalSteps(top, s, i, QUIET, m, origin, from);
    var c := s.flight[i];
    assert forall e :: e in Relay(c.dst, top[c.dst], c.packet) ==>
        IsCopy(e, m) && e.packet.sender == from && e.packet.ttl <= INITIAL_TTL && e.src in top;
  }

  lemma FirstPerformed(top: Topology, m: MessageId, origin: NodeId, from: NodeId) returns (states: seq<Net>, acts: seq<Action>)
    requires ValidTopology(top) && ReadSender(top, origin, from)
    ensures Performs(top, states, acts, m, origin, from, Flood.Start(Rooted(top, origin, from), from, INITIAL_TTL))
  {
    var a := Send(origin, Packet(from, INITIAL_TTL, Chat(m, None)));
    var quiet := Net(map v | v in top :: Node({}, [], {}), [], []);
    states, acts := [quiet, Next(top, quiet, a)], [a];
    RefinesStart(top, quiet, m, origin, from);
  }

  lemma {:induction false} FloodPerformed(top: Topology, m: MessageId, origin: NodeId, from: NodeId, ds: seq<Delivery>,
                                          f: State) returns (states: seq<Net>, acts: seq<Action>)
    requires ValidTopology(top) && ReadSender(top, origin, from)
    requires Reaches(Rooted(top, origin, from), from, INITIAL_TTL, ds, f) && forall d :: d in ds ==> d.accepted
    ensures Performs(top, states, acts, m, origin, from, f)
    decreases |ds|
  {
    var net := Rooted(top, origin, from);
    if ds == [] {
      states, acts := FirstPerformed(top, m, origin, from);
    } else {
      var d, front := ds[|ds| - 1], ds[..|ds| - 1];
      var before :| Reaches(net, from, INITIAL_TTL, front, before) && Takes(net, from, before, d, f);
      assert d in ds;
      states, acts := FloodPerformed(top, m, origin, from, front, before);
      TraceValid(top, states, acts, |acts|);
      PerformOne(top, states[|acts|], d.index, m, origin, from);
      PerformsOneMore(top, states, acts, m, origin, from, before, d.index, f);
      var a := Arrive(d.index, QUIET);
      states, acts := states + [Next(top, states[|acts|], a)], acts + [a];
    }
  }

  /** Asynchronous outcomes: the sets of nodes that finished reliable runs reach are exactly the labelled ones. */
  lemma BroadcastOutcomes(top: Topology, m: MessageId, origin: NodeId, from: NodeId, covered: set<NodeId>)
    requires ValidTopology(top) && ReadSender(top, origin, from)
    ensures (exists states, acts :: FinishedRun(top, states, acts, m, origin, from) && Reached(states[|acts|], m) == covered)
       <==> (exists l :: Labelled(Rooted(top, origin, from), from, INITIAL_TTL, l) && l.Keys - {from} == covered)
  {
    var net := Rooted(top, origin, from);
    RootedValid(top, origin, from);
    if states, acts :| FinishedRun(top, states, acts, m, origin, from) && Reached(states[|acts|], m) == covered {
      FinishedRefines(top, states, acts, m, origin, from);
      var l := OutcomeLabelled(net, from, INITIAL_TTL, Deliveries(states, acts, m, |acts|),
                               Project(states[|acts|], m, origin, from));
      assert l.Keys - {from} == covered;
    }
    if l :| Labelled(net, from, INITIAL_TTL, l) && l.Keys - {from} == covered {
      var states, acts := LabellingPerformed(top, m, origin, from, l);
    }
  }

  lemma LabellingPerformed(top: Topology, m: MessageId, origin: NodeId, from: NodeId, l: Labelling)
      returns (states: seq<Net>, acts: seq<Action>)
    requires ValidTopology(top) && ReadSender(top, origin, from)
    requires Labelled(Rooted(top, origin, from), from, INITIAL_TTL, l)
    ensures FinishedRun(top, states, acts, m, origin, from) && Reached(states[|acts|], m) == l.Keys - {from}
  {
    RootedValid(top, origin, from);
    var ds, f := LabellingRealised(Rooted(top, origin, from), from, INITIAL_TTL, l);
    states, acts := FloodPerformed(top, m, origin, from, ds, f);
    AllHops(states[|acts|].flight, m);
    assert |Project(states[|acts|], m, origin, from).flight| == 0;
    FinishedRefines(top, states, acts, m, origin, from);
  }

  /**
   Asynchronous coverage, exactly: every finished reliable run delivers the message to the application of every other node
   if and only if no labelling with at most INITIAL_TTL links leaves out one of them.
   */
  lemma BroadcastCoverage(top: Topology, m: MessageId, origin: NodeId, from: NodeId)
    requires ValidTopology(top) && ReadSender(top, origin, from)
    ensures (forall states, acts :: FinishedRun(top, states, acts, m, origin, from) ==>
               top.Keys - {origin} <= Reached(states[|acts|], m))
       <==> !exists l :: LeavesOut(Rooted(top, origin, from), from, INITIAL_TTL, l, top.Keys - {origin})
  {
    var net, others := Rooted(top, origin, from), top.Keys - {origin};
    RootedValid(top, origin, from);
    if states, acts :| FinishedRun(top, states, acts, m, origin, from) && !(others <= Reached(states[|acts|], m)) {
      FinishedRefines(top, states, acts, m, origin, from);
      var l := OutcomeLabelled(net, from, INITIAL_TTL, Deliveries(states, acts, m, |acts|),
                               Project(states[|acts|], m, origin, from));
      assert LeavesOut(net, from, INITIAL_TTL, l, others);
    }
    if l :| LeavesOut(net, from, INITIAL_TTL, l, others) {
      var states, acts := LabellingPerformed(top, m, origin, from, l);
    }
  }

  /** One node of such a network. */
  lemma NodeReached(top: Topology, origin: NodeId, from: NodeId, ds: seq<Delivery>, f: State, v: NodeId)
    requires ValidTopology(top) && ReadSender(top, origin, from) && v != origin && exists w :: WalkBetween(top, origin, v, w)
    requires Finished(Rooted(top, origin, from), from, INITIAL_TTL, ds, f)
    requires
      || |Rooted(top, origin, from).Keys| <= INITIAL_TTL + 1
      || !exists w :: Overlong(Rooted(top, origin, from), from, INITIAL_TTL, w)
    ensures v == from || v in f.seen
  {
    var net := Rooted(top, origin, from);
    RootedValid(top, origin, from);
    var w :| WalkBetween(top, origin, v, w);
    WalkFromSender(top, origin, from, v, w);
    if |net.Keys| <= INITIAL_TTL + 1 {
      SmallNetworksCovered(net, from, INITIAL_TTL, ds, f, v);
    } else {
      ShortWalksCovered(net, from, INITIAL_TTL, ds, f, v);
    }
  }

  /**
   It does so in every connected network without a simple walk of eight links from the sender that is read: in every one
   of eight nodes if that is the author, of seven nodes if not.
   */
  lemma BroadcastReachesAll(top: Topology, states: seq<Net>, acts: seq<Action>, m: MessageId, origin: NodeId, from: NodeId)
    requires FinishedRun(top, states, acts, m, origin, from) && Connected(top, origin)
    requires
      || |Rooted(top, origin, from).Keys| <= INITIAL_TTL + 1
      || !exists w :: Overlong(Rooted(top, origin, from), from, INITIAL_TTL, w)
    ensures top.Keys - {origin} <= Reached(states[|acts|], m)
    ensures from == origin ==> Reached(states[|acts|], m) == top.Keys - {origin}
  {
    var ds, f := Deliveries(states, acts, m, |acts|), Project(states[|acts|], m, origin, from);
    FinishedRefines(top, states, acts, m, origin, from);
    forall v | v in top && v != origin
      ensures v in f.seen
    {
      NodeReached(top, origin, from, ds, f, v);
    }
    var l := OutcomeLabelled(Rooted(top, origin, from), from, INITIAL_TTL, ds, f);
    TraceValid(top, states, acts, |acts|);
  }
}
