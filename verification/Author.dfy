/**
 What a broadcast costs and whom it reaches when its author does not recognise its own packets, because its id ends in a
 zero byte: the exact conditions, and networks in which the difference shows.
 */
module Author {
  import opened Outcomes
  import opened Octets
  import opened PacketCodec
  import opened PeerIds
  import opened Finite
  import opened Flood
  import opened FloodTheorems
  import opened Coverage
  import opened Mesh
  import opened Network
  import opened NetworkTheorems
  import opened Cost

  // ----- The sender that is read -----

  /** Every node's eight bytes, all different. */
  ghost predicate ValidIds(top: Topology, ids: map<NodeId, Bytes>) {
    && ids.Keys == top.Keys && (forall v :: v in top ==> |ids[v]| == ID_SIZE)
    && (forall u, v :: u in top && v in top && ids[u] == ids[v] ==> u == v)
  }

  /** `from` stands for the id that receivers read in the packets of `origin`: a node has that id exactly if it is `from`. */
  ghost predicate ReadAs(top: Topology, ids: map<NodeId, Bytes>, origin: NodeId, from: NodeId) {
    ValidIds(top, ids) && origin in top && forall v :: v in top ==> (ids[v] == Seen(ids[origin]) <==> v == from)
  }

  /** Receivers read the author or nobody, and the author if and only if its id does not end in a zero byte. */
  lemma ReadAsOwn(top: Topology, ids: map<NodeId, Bytes>, origin: NodeId, from: NodeId)
    requires ReadAs(top, ids, origin, from)
    ensures ReadSender(top, origin, from) && (from == origin <==> !EndsInZero(ids[origin]))
  {
    forall v | v in top
      ensures v == from <==> v == origin && !EndsInZero(ids[origin])
    {
      SeenAs(ids[origin], ids[v]);
    }
  }

  // ----- Cost -----

  /** A closed walk on which a copy comes back to the author with TTL left. */
  ghost predicate EchoWalk(top: Topology, origin: NodeId, w: seq<NodeId>) {
    WalkBetween(top, origin, origin, w) && 1 <= |w| - 1 < INITIAL_TTL
  }

  /** An author relays its own message only if it does not recognise it and a copy came back with TTL left. */
  lemma AuthorRelays(top: Topology, states: seq<Net>, acts: seq<Action>, m: MessageId, origin: NodeId, from: NodeId, i: nat)
    requires BroadcastRun(top, states, acts, m, origin, from) && i < |acts|
    requires RelaysAt(top, states[i], acts[i], m, origin)
    ensures from != origin && exists w :: EchoWalk(top, origin, w)
  {
    RelaysWhen(top, states[i], acts[i], m, origin);
    var c := states[i].flight[acts[i].index];
    assert i >= 1 && Network.Fresh(acts[i], m);
    Refines(top, states, acts, m, origin, from, i);
    assert IsCopy(c, m) && c.packet.sender == from;
    CopiesTravelWalks(top, states, acts, m, origin, from, i, c);
    var w :| WalkBetween(top, origin, c.dst, w) && |w| - 1 == INITIAL_TTL + 1 - c.packet.ttl;
    assert EchoWalk(top, origin, w);
  }

  lemma BroadcastSender(top: Topology, states: seq<Net>, acts: seq<Action>, m: MessageId, origin: NodeId, from: NodeId)
    requires BroadcastRun(top, states, acts, m, origin, from)
    ensures OneSender(top, states, acts, m, 0)
  {
    HopsNone(states[0].log, m);
    assert forall i :: 1 <= i < |acts| && Network.Fresh(acts[i], m) ==> SendsNoCopy(acts[i], m);
  }

  /**
   When nobody reassembles or encrypts the id, and the author recognises its packets or no closed walk leads back to it
   within six links, the author does not relay and no link is crossed twice.
   */
  lemma PlainBroadcastCost(top: Topology, states: seq<Net>, acts: seq<Action>, m: MessageId, origin: NodeId, from: NodeId)
    requires BroadcastRun(top, states, acts, m, origin, from)
    requires from == origin || !exists w :: EchoWalk(top, origin, w)
    ensures
      var log := Hops(states[|acts|].log, m);
      OncePerLink(log) && |log| <= |Links(top)| && !Relays(top, states, acts, m, origin, |acts|)
  {
    if i :| 0 <= i < |acts| && RelaysAt(top, states[i], acts[i], m, origin) {
      AuthorRelays(top, states, acts, m, origin, from, i);
    }
    BroadcastSender(top, states, acts, m, origin, from);
    BroadcastCost(top, states, acts, m, origin, 0, acts[0].packet);
  }

  /** A closed walk without detours. */
  lemma {:induction false} SimpleEcho(top: Topology, origin: NodeId, w: seq<NodeId>) returns (w': seq<NodeId>)
    requires WalkBetween(top, origin, origin, w) && |w| >= 2
    ensures WalkBetween(top, origin, origin, w') && 2 <= |w'| <= |w|
    ensures forall i, j :: 1 <= i < j < |w'| ==> w'[i] != w'[j]
    decreases |w|
  {
    if i, j :| 1 <= i < j < |w| && w[i] == w[j] {
      Shortcut(top, origin, origin, w, i, j);
      w' := SimpleEcho(top, origin, w[..i] + w[j..]);
    } else {
      w' := w;
    }
  }

  lemma Shortcut(top: Topology, u: NodeId, v: NodeId, w: seq<NodeId>, i: nat, j: nat)
    requires WalkBetween(top, u, v, w) && 1 <= i < j < |w| && w[i] == w[j]
    ensures WalkBetween(top, u, v, w[..i] + w[j..])
  {
    var w' := w[..i] + w[j..];
    forall k | 0 <= k < |w'| - 1
      ensures w'[k] in top && w'[k + 1] in top[w'[k]]
    {
      if k < i {
        assert w'[k] == w[k] && w'[k + 1] == w[k + 1];
      } else {
        assert w'[k] == w[k - i + j] && w'[k + 1] == w[k - i + j + 1];
      }
    }
  }

  /** The nodes of a walk, numbered. */
  function WalkLabels(w: seq<NodeId>): Labelling
    requires |w| >= 1
  {
    if |w| == 1 then map[w[0] := 0] else WalkLabels(w[..|w| - 1])[w[|w| - 1] := |w| - 1]
  }

  lemma {:induction false} WalkLabelsAt(w: seq<NodeId>)
    requires |w| >= 1 && forall i, j :: 0 <= i < j < |w| ==> w[i] != w[j]
    ensures forall i :: 0 <= i < |w| ==> w[i] in WalkLabels(w) && WalkLabels(w)[w[i]] == i
    ensures forall v :: v in WalkLabels(w) ==> v in w
    decreases |w|
  {
    if |w| > 1 {
      WalkLabelsAt(w[..|w| - 1]);
    }
  }

  lemma WalkPlaced(top: Topology, limit: nat, w: seq<NodeId>)
    requires ValidTopology(top) && SimpleWalk(top, w) && 2 <= |w| <= limit + 1
    ensures AllPlaced(top, w[0], limit, WalkLabels(w))
  {
    var l := WalkLabels(w);
    WalkLabelsAt(w);
    forall v | v in l
      ensures Placed(top, w[0], limit, l, v)
    {
      var i :| 0 <= i < |w| && w[i] == v;
      if i > 0 {
        assert w[i - 1] in top && w[i - 1 + 1] in top[w[i - 1]];
        assert Parent(top, l, w[i - 1], v);
      }
    }
  }

  /** The closed walk as one from the sender that is read, which is not on it. */
  lemma EchoFromSender(top: Topology, origin: NodeId, from: NodeId, w: seq<NodeId>)
    requires ValidTopology(top) && ReadSender(top, origin, from) && from != origin && EchoWalk(top, origin, w)
    requires forall i, j :: 1 <= i < j < |w| ==> w[i] != w[j]
    ensures SimpleWalk(Rooted(top, origin, from), w[0 := from])
  {
    WalkFromSender(top, origin, from, origin, w);
    forall i | 1 <= i < |w|
      ensures w[i] != from
    {
      assert w[i - 1 + 1] in top[w[i - 1]];
    }
  }

  /** A flood in which the copy that comes back is delivered first: the author sends to its connections twice. */
  lemma EchoFlood(top: Topology, origin: NodeId, from: NodeId, w: seq<NodeId>)
      returns (ds: seq<Delivery>, f: State, x: NodeId, t: nat)
    requires ValidTopology(top) && ReadSender(top, origin, from) && from != origin && EchoWalk(top, origin, w)
    ensures Reaches(Rooted(top, origin, from), from, INITIAL_TTL, ds, f) && forall d :: d in ds ==> d.accepted
    ensures t < INITIAL_TTL && Hop(from, x, INITIAL_TTL) in f.log && Hop(origin, x, t) in f.log
  {
    var net := Rooted(top, origin, from);
    RootedValid(top, origin, from);
    var short := SimpleEcho(top, origin, w);
    EchoFromSender(top, origin, from, short);
    var walk := short[0 := from];
    WalkPlaced(net, INITIAL_TTL, walk);
    WalkLabelsAt(walk);
    ds, f := ServeAll(net, from, INITIAL_TTL, WalkLabels(walk));
    x, t := short[1], INITIAL_TTL + 1 - |short|;
    assert walk[|short| - 1] == origin && walk[0] == from && x in top[origin];
    assert Sent(f, Hop(from, x, INITIAL_TTL)) && Sent(f, Hop(origin, x, t));
  }

  /** A name in the projection of a log, undone. */
  lemma NamedFrom(hs: seq<Hop>, origin: NodeId, from: NodeId, h: Hop) returns (i: nat)
    requires h in AllNamed(hs, origin, from)
    ensures i < |hs| && Named(hs[i], origin, from) == h
  {
    i :| 0 <= i < |hs| && AllNamed(hs, origin, from)[i] == h;
  }

  lemma EchoRun(top: Topology, m: MessageId, origin: NodeId, from: NodeId, w: seq<NodeId>)
      returns (states: seq<Net>, acts: seq<Action>)
    requires ValidTopology(top) && ReadSender(top, origin, from) && from != origin && EchoWalk(top, origin, w)
    ensures BroadcastRun(top, states, acts, m, origin, from) && Reliable(states, acts, m) && AllOnce(states[0])
    ensures !OncePerLink(Hops(states[|acts|].log, m))
  {
    var ds, f, x, t := EchoFlood(top, origin, from, w);
    states, acts := FloodPerformed(top, m, origin, from, ds, f);
    EchoCrosses(top, states[|acts|].log, m, origin, from, x, t);
  }

  lemma EchoCrosses(top: Topology, log: seq<Copy>, m: MessageId, origin: NodeId, from: NodeId, x: NodeId, t: nat)
    requires from !in top && from != origin && t < INITIAL_TTL && forall c :: c in log ==> IsCopy(c, m) && c.src in top
    requires Hop(from, x, INITIAL_TTL) in AllNamed(Hops(log, m), origin, from)
    requires Hop(origin, x, t) in AllNamed(Hops(log, m), origin, from)
    ensures !OncePerLink(Hops(log, m))
  {
    AllHops(log, m);
    var i := NamedFrom(Hops(log, m), origin, from, Hop(from, x, INITIAL_TTL));
    var j := NamedFrom(Hops(log, m), origin, from, Hop(origin, x, t));
    assert log[i] in log;
    TwoCrossings(Hops(log, m), i, j);
  }

  lemma TwoCrossings(log: seq<Hop>, i: nat, j: nat)
    requires i < |log| && j < |log| && i != j && log[i].src == log[j].src && log[i].dst == log[j].dst
    ensures !OncePerLink(log)
  {
    var low, high := if i < j then i else j, if i < j then j else i;
    assert log[low].src == log[high].src && log[low].dst == log[high].dst;
  }

  /**
   The exact condition: no run of a plain broadcast crosses a link twice if and only if its author recognises its packets
   or no closed walk leads back to it within six links.
   */
  lemma PlainCostExactly(top: Topology, m: MessageId, origin: NodeId, from: NodeId)
    requires ValidTopology(top) && ReadSender(top, origin, from)
    ensures (forall states: seq<Net>, acts: seq<Action> :: BroadcastRun(top, states, acts, m, origin, from) ==>
               OncePerLink(Hops(states[|acts|].log, m)))
       <==> (from == origin || !exists w :: EchoWalk(top, origin, w))
  {
    if from == origin || !exists w :: EchoWalk(top, origin, w) {
      forall states: seq<Net>, acts: seq<Action> | BroadcastRun(top, states, acts, m, origin, from)
        ensures OncePerLink(Hops(states[|acts|].log, m))
      {
        PlainBroadcastCost(top, states, acts, m, origin, from);
      }
    } else {
      var w :| EchoWalk(top, origin, w);
      var states, acts := EchoRun(top, m, origin, from, w);
    }
  }

  /** With one connection that is connected back, as over every socket, it is a matter of the last byte of the id. */
  lemma LastByteDecides(top: Topology, ids: map<NodeId, Bytes>, m: MessageId, origin: NodeId, from: NodeId, peer: NodeId)
    requires ValidTopology(top) && ReadAs(top, ids, origin, from)
    requires peer in top[origin] && peer in top && origin in top[peer]
    ensures (forall states: seq<Net>, acts: seq<Action> :: BroadcastRun(top, states, acts, m, origin, from) ==>
               OncePerLink(Hops(states[|acts|].log, m)))
       <==> !EndsInZero(ids[origin])
  {
    ReadAsOwn(top, ids, origin, from);
    ThereAndBack(top, origin, peer);
    PlainCostExactly(top, m, origin, from);
  }

  lemma ThereAndBack(top: Topology, origin: NodeId, peer: NodeId)
    requires ValidTopology(top) && origin in top && peer in top[origin] && peer in top && origin in top[peer]
    ensures exists w :: EchoWalk(top, origin, w)
  {
    assert EchoWalk(top, origin, [origin, peer, origin]);
  }

  /** Two daemons: an author that does not recognise its packets relays its own message and crosses its link twice. */
  lemma UnrecognisedAuthorPays(m: MessageId, from: NodeId) returns (states: seq<Net>, acts: seq<Action>)
    requires from > 1
    ensures BroadcastRun(PAIR, states, acts, m, 0, from) && Reliable(states, acts, m)
    ensures Relays(PAIR, states, acts, m, 0, |acts|) && !OncePerLink(Hops(states[|acts|].log, m))
  {
    assert EchoWalk(PAIR, 0, [0, 1, 0]);
    assert ValidTopology(PAIR);
    states, acts := EchoRun(PAIR, m, 0, from, [0, 1, 0]);
    BroadcastSender(PAIR, states, acts, m, 0, from);
    BroadcastCost(PAIR, states, acts, m, 0, 0, acts[0].packet);
  }

  // ----- Coverage -----

  /**
   Node 0 with connections to node 1 and to a chain from node 2 to node `limit`, every connection both ways. Node 1 sends
   everything back.
   */
  function Spur(limit: nat): Topology
    requires limit >= 3
  {
    map v: nat | v < limit + 1 :: SpurLinks(limit, v)
  }

  function SpurLinks(limit: nat, v: nat): seq<NodeId>
    requires limit >= 3
  {
    if v == 0 then [1, 2]
    else if v == 1 then [0]
    else if v == 2 then [0, 3]
    else if v < limit then [v - 1, v + 1]
    else [limit - 1]
  }

  lemma {:induction false} SpurWalk(limit: nat, v: nat) returns (w: seq<NodeId>)
    requires limit >= 3 && v <= limit
    ensures WalkBetween(Spur(limit), 0, v, w) && |w| - 1 <= v && (v >= 2 ==> |w| - 1 == v - 1)
    decreases v
  {
    if v == 0 {
      w := [0];
    } else if v <= 2 {
      w := [0, v];
    } else {
      var w' := SpurWalk(limit, v - 1);
      w := w' + [v];
    }
  }

  lemma SpurConnected(limit: nat)
    requires limit >= 3
    ensures ValidTopology(Spur(limit)) && Connected(Spur(limit), 0) && |Spur(limit).Keys| == limit + 1
  {
    forall v | v in Spur(limit)
      ensures exists w :: WalkBetween(Spur(limit), 0, v, w)
    {
      var w := SpurWalk(limit, v);
    }
    SpurSize(limit);
  }

  lemma SpurSize(limit: nat)
    requires limit >= 3
    ensures |Spur(limit).Keys| == limit + 1
  {
    assert Spur(limit).Keys == Indices(limit + 1);
  }

  /** The copy that node 1 sends back makes node 0 start over with two links fewer, before its own copy reaches node 2. */
  function SpurLabels(limit: nat, from: NodeId, n: nat): (l: Labelling)
    requires 2 <= n && from > limit > n
    ensures forall v: NodeId :: v in l <==> v <= n || v == from
    ensures forall v: NodeId :: v in l ==> l[v] == if v == from then 0 else if v == 1 then 1 else if v == 0 then 2 else v + 1
  {
    if n == 2 then map[from := 0, 1 := 1, 0 := 2, 2 := 3] else SpurLabels(limit, from, n - 1)[n := n + 1]
  }

  lemma SpurLabelled(limit: nat, from: NodeId)
    requires limit >= 3 && from > limit
    ensures Labelled(Rooted(Spur(limit), 0, from), from, limit, SpurLabels(limit, from, limit - 1))
  {
    var net, l := Rooted(Spur(limit), 0, from), SpurLabels(limit, from, limit - 1);
    assert Spur(limit)[0] == [1, 2] && Spur(limit)[1] == [0] && net[from] == [1, 2];
    forall v | v in l
      ensures LabelOk(net, from, limit, l, v)
    {
      if v == 1 {
        assert Parent(net, l, from, 1);
      } else if v == 0 {
        assert Parent(net, l, 1, 0);
      } else if v == 2 {
        assert Parent(net, l, 0, 2);
      } else if v != from {
        assert net[v - 1] == SpurLinks(limit, v - 1);
        assert Parent(net, l, v - 1, v);
      }
    }
  }

  /**
   A network of eight connected nodes in which a broadcast of an author that recognises its packets reaches every node in
   every finished reliable run, while otherwise some finished reliable run misses a node six links away.
   */
  lemma UnrecognisedAuthorMisses(m: MessageId, from: NodeId) returns (states: seq<Net>, acts: seq<Action>)
    requires from > 7
    ensures ValidTopology(Spur(7)) && Connected(Spur(7), 0) && |Spur(7).Keys| == 8
    ensures FinishedRun(Spur(7), states, acts, m, 0, from) && 7 !in Reached(states[|acts|], m)
    ensures exists w :: WalkBetween(Spur(7), 0, 7, w) && |w| - 1 == 6
    ensures forall ss, as' :: FinishedRun(Spur(7), ss, as', m, 0, 0) ==> Reached(ss[|as'|], m) == Spur(7).Keys - {0}
  {
    SpurConnected(7);
    SpurLabelled(7, from);
    var w := SpurWalk(7, 7);
    states, acts := LabellingPerformed(Spur(7), m, 0, from, SpurLabels(7, from, 6));
    RootedValid(Spur(7), 0, 0);
    forall ss, as' | FinishedRun(Spur(7), ss, as', m, 0, 0)
      ensures Reached(ss[|as'|], m) == Spur(7).Keys - {0}
    {
      BroadcastReachesAll(Spur(7), ss, as', m, 0, 0);
    }
  }
}
