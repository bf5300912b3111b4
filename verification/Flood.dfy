/**
 Flooding of one broadcast message: an origin sends to all its connections with TTL `limit`; a node that sees the message
 for the first time relays it to all its connections with the TTL decremented, and discards every later copy, even one
 with a larger TTL. Copies are delivered in any order; `accepted` says whether the receiver could read this one.
 */
module Flood {

  type NodeId = nat

  /** Each node's connections. */
  type Topology = map<NodeId, seq<NodeId>>

  ghost predicate ValidTopology(top: Topology) {
    forall v :: v in top ==>
      && (forall i :: 0 <= i < |top[v]| ==> top[v][i] in top)
      && (forall i, j :: 0 <= i < j < |top[v]| ==> top[v][i] != top[v][j])
  }

  /** One copy on one directed link. */
  datatype Hop = Hop(src: NodeId, dst: NodeId, ttl: nat)

  /** `log` holds every copy ever sent, `seen` the nodes that have processed the message. */
  datatype State = State(flight: seq<Hop>, log: seq<Hop>, seen: set<NodeId>)

  /** One copy to each of some connections. */
  function FanOut(v: NodeId, links: seq<NodeId>, ttl: nat): seq<Hop> {
    seq(|links|, i requires 0 <= i < |links| => Hop(v, links[i], ttl))
  }

  function Fan(top: Topology, v: NodeId, ttl: nat): seq<Hop>
    requires v in top
  {
    FanOut(v, top[v], ttl)
  }

  function Start(top: Topology, origin: NodeId, limit: nat): State
    requires origin in top
  {
    State(Fan(top, origin, limit), Fan(top, origin, limit), {})
  }

  function Step(top: Topology, origin: NodeId, f: State, k: nat, accepted: bool): State
    requires k < |f.flight| && f.flight[k].dst in top
  {
    var h := f.flight[k];
    var rest := f.flight[..k] + f.flight[k + 1..];
    if !accepted || h.dst == origin || h.dst in f.seen then f.(flight := rest)
    else
      var out := if h.ttl > 1 then Fan(top, h.dst, h.ttl - 1) else [];
      State(rest + out, f.log + out, f.seen + {h.dst})
  }

  // ----- The invariant -----

  ghost predicate Sent(f: State, h: Hop) {
    h in f.log
  }

  /** Copies travel over links, carry a TTL between one and the limit, and were logged. */
  ghost predicate WellSent(top: Topology, limit: nat, f: State) {
    && (forall h :: h in f.flight ==> Sent(f, h))
    && (forall h :: Sent(f, h) ==> h.src in top && h.dst in top[h.src] && 1 <= h.ttl <= limit)
  }

  /** The sender is the origin, or has processed a copy whose TTL was one higher; it sent this TTL to all connections. */
  ghost predicate HopOk(top: Topology, origin: NodeId, limit: nat, f: State, h: Hop) {
    && (if h.src == origin then h.ttl == limit else h.src in f.seen && Fed(f, h.src, h.ttl + 1))
    && (forall w :: h.src in top && w in top[h.src] ==> Sent(f, Hop(h.src, w, h.ttl)))
  }

  ghost predicate Chained(top: Topology, origin: NodeId, limit: nat, f: State) {
    forall h {:trigger HopOk(top, origin, limit, f, h)} :: Sent(f, h) ==> HopOk(top, origin, limit, f, h)
  }

  ghost predicate Fed(f: State, v: NodeId, ttl: nat) {
    exists u :: Sent(f, Hop(u, v, ttl))
  }

  ghost predicate OneTtlEach(f: State) {
    forall h, h' :: Sent(f, h) && Sent(f, h') && h.src == h'.src ==> h.ttl == h'.ttl
  }

  /** A node that processed the message relayed it to all its connections, unless the copy it processed was spent. */
  ghost predicate NodeOk(top: Topology, origin: NodeId, f: State, v: NodeId) {
    && v in top && v != origin
    && exists t :: t >= 1 && Fed(f, v, t) && (t == 1 || forall w :: w in top[v] ==> Sent(f, Hop(v, w, t - 1)))
  }

  ghost predicate Relayed(top: Topology, origin: NodeId, f: State) {
    forall v {:trigger NodeOk(top, origin, f, v)} :: v in f.seen ==> NodeOk(top, origin, f, v)
  }

  ghost predicate OncePerLink(log: seq<Hop>) {
    forall i, j :: 0 <= i < j < |log| ==> log[i].src != log[j].src || log[i].dst != log[j].dst
  }

  ghost predicate Inv(top: Topology, origin: NodeId, limit: nat, f: State) {
    && WellSent(top, limit, f) && Chained(top, origin, limit, f) && OneTtlEach(f) && Relayed(top, origin, f)
    && OncePerLink(f.log)
  }

  /** Without losses: every copy is in flight, or its receiver has the message. */
  ghost predicate NothingLost(origin: NodeId, f: State) {
    forall h :: Sent(f, h) ==> h in f.flight || h.dst == origin || h.dst in f.seen
  }

  lemma FanSends(top: Topology, v: NodeId, ttl: nat, h: Hop)
    requires v in top
    ensures h in Fan(top, v, ttl) <==> h.src == v && h.ttl == ttl && h.dst in top[v]
  {
    if h.src == v && h.ttl == ttl && h.dst in top[v] {
      var i :| 0 <= i < |top[v]| && top[v][i] == h.dst;
      assert Fan(top, v, ttl)[i] == h;
    }
  }

  lemma StartInv(top: Topology, origin: NodeId, limit: nat)
    requires ValidTopology(top) && origin in top && limit >= 1
    ensures Inv(top, origin, limit, Start(top, origin, limit)) && NothingLost(origin, Start(top, origin, limit))
  {
    forall h {
      FanSends(top, origin, limit, h);
    }
  }

  /** What one step changes, by membership: copy `h` leaves, and a first receipt adds the receiver's relays. */
  ghost predicate Delta(top: Topology, f: State, f': State, h: Hop, isNew: bool) {
    && Sent(f, h)
    && (forall g :: g in f'.flight ==> Sent(f', g))
    && (forall g :: g in f.flight ==> g in f'.flight || g == h)
    && f'.seen == (if isNew then f.seen + {h.dst} else f.seen)
    && (forall g :: Sent(f', g) <==>
          Sent(f, g) || (isNew && h.ttl > 1 && h.dst in top && g.src == h.dst && g.ttl == h.ttl - 1 && g.dst in top[h.dst]))
    && (forall g :: Sent(f', g) ==> Sent(f, g) || g in f'.flight)
  }

  lemma StepDelta(top: Topology, origin: NodeId, limit: nat, f: State, k: nat, accepted: bool)
    requires WellSent(top, limit, f) && k < |f.flight| && f.flight[k].dst in top
    ensures
      var h := f.flight[k];
      Delta(top, f, Step(top, origin, f, k, accepted), h, accepted && h.dst != origin && h.dst !in f.seen)
  {
    var h := f.flight[k];
    var rest := f.flight[..k] + f.flight[k + 1..];
    assert forall g :: g in f.flight ==> g in rest || g == h;
    assert forall g :: g in rest ==> g in f.flight;
    if h.ttl > 1 {
      forall g {
        FanSends(top, h.dst, h.ttl - 1, g);
      }
    }
  }

  lemma FedKept(top: Topology, f: State, f': State, h: Hop, isNew: bool, v: NodeId, t: nat)
    requires Delta(top, f, f', h, isNew) && Fed(f, v, t)
    ensures Fed(f', v, t)
  {
    var u :| Sent(f, Hop(u, v, t));
    assert Sent(f', Hop(u, v, t));
  }

  lemma ChainedKept(top: Topology, origin: NodeId, limit: nat, f: State, f': State, h: Hop, isNew: bool)
    requires Delta(top, f, f', h, isNew) && Chained(top, origin, limit, f) && (isNew ==> h.dst != origin)
    ensures Chained(top, origin, limit, f')
  {
    forall g | Sent(f', g)
      ensures HopOk(top, origin, limit, f', g)
    {
      if Sent(f, g) {
        assert HopOk(top, origin, limit, f, g);
        if g.src != origin {
          FedKept(top, f, f', h, isNew, g.src, g.ttl + 1);
        }
      } else {
        assert Sent(f', Hop(h.src, h.dst, h.ttl));
      }
    }
  }

  lemma RelayedKept(top: Topology, origin: NodeId, f: State, f': State, h: Hop, isNew: bool)
    requires Delta(top, f, f', h, isNew) && Relayed(top, origin, f) && h.ttl >= 1
    requires isNew ==> h.dst != origin && h.dst in top
    ensures Relayed(top, origin, f')
  {
    forall v | v in f'.seen
      ensures NodeOk(top, origin, f', v)
    {
      if v in f.seen {
        assert NodeOk(top, origin, f, v);
        var t :| t >= 1 && Fed(f, v, t) && (t == 1 || forall w :: w in top[v] ==> Sent(f, Hop(v, w, t - 1)));
        FedKept(top, f, f', h, isNew, v, t);
      } else {
        assert Fed(f', h.dst, h.ttl) by { assert Sent(f', Hop(h.src, h.dst, h.ttl)); }
      }
    }
  }

  /** A node that has not processed the message, and is not the origin, has sent nothing. */
  lemma UnseenSilent(top: Topology, origin: NodeId, limit: nat, f: State, v: NodeId, h: Hop)
    requires Chained(top, origin, limit, f) && v != origin && v !in f.seen && Sent(f, h)
    ensures h.src != v
  {
    assert HopOk(top, origin, limit, f, h);
  }

  lemma OncePerLinkKept(top: Topology, f: State, v: NodeId, ttl: nat)
    requires ValidTopology(top) && v in top && OncePerLink(f.log) && (forall h :: Sent(f, h) ==> h.src != v)
    ensures OncePerLink(f.log + Fan(top, v, ttl))
  {
    assert forall i :: 0 <= i < |f.log| ==> Sent(f, f.log[i]);
  }

  lemma FreshKept(top: Topology, origin: NodeId, limit: nat, f: State, f': State, h: Hop)
    requires Delta(top, f, f', h, true) && WellSent(top, limit, f) && Chained(top, origin, limit, f) && OneTtlEach(f)
    requires h.dst in top && h.dst != origin && h.dst !in f.seen
    ensures WellSent(top, limit, f') && OneTtlEach(f')
    ensures NothingLost(origin, f) ==> NothingLost(origin, f')
  {
    forall g | Sent(f, g) {
      UnseenSilent(top, origin, limit, f, h.dst, g);
    }
  }

  lemma StaleKept(top: Topology, origin: NodeId, limit: nat, f: State, f': State, h: Hop)
    requires Delta(top, f, f', h, false) && Inv(top, origin, limit, f) && f'.log == f.log && f'.seen == f.seen
    ensures Inv(top, origin, limit, f')
    ensures (h.dst == origin || h.dst in f.seen) && NothingLost(origin, f) ==> NothingLost(origin, f')
  {
    ChainedKept(top, origin, limit, f, f', h, false);
    RelayedKept(top, origin, f, f', h, false);
  }

  /** Every step keeps the invariant, and a step whose copy is accepted loses nothing. */
  lemma StepInv(top: Topology, origin: NodeId, limit: nat, f: State, k: nat, accepted: bool)
    requires ValidTopology(top) && Inv(top, origin, limit, f) && k < |f.flight| && f.flight[k].dst in top
    ensures Inv(top, origin, limit, Step(top, origin, f, k, accepted))
    ensures accepted && NothingLost(origin, f) ==> NothingLost(origin, Step(top, origin, f, k, accepted))
  {
    var h := f.flight[k];
    var f' := Step(top, origin, f, k, accepted);
    StepDelta(top, origin, limit, f, k, accepted);
    if accepted && h.dst != origin && h.dst !in f.seen {
      ChainedKept(top, origin, limit, f, f', h, true);
      RelayedKept(top, origin, f, f', h, true);
      FreshKept(top, origin, limit, f, f', h);
      LogKept(top, origin, limit, f, h);
    } else {
      StaleKept(top, origin, limit, f, f', h);
    }
  }

  lemma LogKept(top: Topology, origin: NodeId, limit: nat, f: State, h: Hop)
    requires ValidTopology(top) && Chained(top, origin, limit, f) && OncePerLink(f.log)
    requires h.dst in top && h.dst != origin && h.dst !in f.seen
    ensures h.ttl > 1 ==> OncePerLink(f.log + Fan(top, h.dst, h.ttl - 1))
    ensures f.log + [] == f.log
  {
    forall g | Sent(f, g) {
      UnseenSilent(top, origin, limit, f, h.dst, g);
    }
    if h.ttl > 1 {
      OncePerLinkKept(top, f, h.dst, h.ttl - 1);
    }
  }
}
