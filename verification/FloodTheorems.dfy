/** What every run of the flood guarantees, with any losses: bounded cost and hop locality. */
module FloodTheorems {
  import opened Flood

  /** A delivery: which copy in flight arrives, and whether its receiver can read it. */
  datatype Delivery = Delivery(index: nat, accepted: bool)

  /** The states of a run, from the origin's first transmission on. */
  ghost predicate Reaches(top: Topology, origin: NodeId, limit: nat, ds: seq<Delivery>, f: State)
    decreases |ds|
  {
    && origin in top
    && if ds == [] then f == Start(top, origin, limit)
       else
         var d := ds[|ds| - 1];
         exists before :: Reaches(top, origin, limit, ds[..|ds| - 1], before) && Takes(top, origin, before, d, f)
  }

  ghost predicate Takes(top: Topology, origin: NodeId, before: State, d: Delivery, f: State) {
    d.index < |before.flight| && before.flight[d.index].dst in top && f == Step(top, origin, before, d.index, d.accepted)
  }

  /** The origin's own transmissions stay logged. */
  ghost predicate FirstFan(top: Topology, origin: NodeId, limit: nat, f: State)
    requires origin in top
  {
    forall w :: w in top[origin] ==> Sent(f, Hop(origin, w, limit))
  }

  lemma {:induction false} ReachableInv(top: Topology, origin: NodeId, limit: nat, ds: seq<Delivery>, f: State)
    requires ValidTopology(top) && limit >= 1 && Reaches(top, origin, limit, ds, f)
    ensures Inv(top, origin, limit, f)
    ensures (forall d :: d in ds ==> d.accepted) ==> NothingLost(origin, f)
    ensures FirstFan(top, origin, limit, f)
    decreases |ds|
  {
    if ds == [] {
      StartInv(top, origin, limit);
      forall h {
        FanSends(top, origin, limit, h);
      }
    } else {
      var d := ds[|ds| - 1];
      var before :| Reaches(top, origin, limit, ds[..|ds| - 1], before) && Takes(top, origin, before, d, f);
      ReachableInv(top, origin, limit, ds[..|ds| - 1], before);
      StepInv(top, origin, limit, before, d.index, d.accepted);
    }
  }

  // ----- Bounded cost -----

  ghost function Links(top: Topology): set<(NodeId, NodeId)> {
    set v, i | v in top && 0 <= i < |top[v]| :: (v, top[v][i])
  }

  lemma {:induction false} DistinctFit(log: seq<Hop>, links: set<(NodeId, NodeId)>)
    requires forall i :: 0 <= i < |log| ==> (log[i].src, log[i].dst) in links
    requires OncePerLink(log)
    ensures |log| <= |links|
    decreases |log|
  {
    if log != [] {
      var n := |log| - 1;
      var last := (log[n].src, log[n].dst);
      assert forall i :: 0 <= i < n ==> (log[..n][i].src, log[..n][i].dst) in links - {last};
      DistinctFit(log[..n], links - {last});
      assert |links - {last}| == |links| - 1;
    }
  }

  /** In any run, with any losses, each directed link carries the message at most once. */
  lemma FloodCost(top: Topology, origin: NodeId, limit: nat, ds: seq<Delivery>, f: State)
    requires ValidTopology(top) && limit >= 1 && Reaches(top, origin, limit, ds, f)
    ensures OncePerLink(f.log) && |f.log| <= |Links(top)|
  {
    ReachableInv(top, origin, limit, ds, f);
    forall i | 0 <= i < |f.log|
      ensures (f.log[i].src, f.log[i].dst) in Links(top)
    {
      var h := f.log[i];
      assert Sent(f, h);
      var j :| 0 <= j < |top[h.src]| && top[h.src][j] == h.dst;
    }
    DistinctFit(f.log, Links(top));
  }

  // ----- Hop locality -----

  ghost predicate Walk(top: Topology, w: seq<NodeId>) {
    |w| >= 1 && forall i :: 0 <= i < |w| - 1 ==> w[i] in top && w[i + 1] in top[w[i]]
  }

  ghost predicate WalkBetween(top: Topology, u: NodeId, v: NodeId, w: seq<NodeId>) {
    Walk(top, w) && w[0] == u && w[|w| - 1] == v
  }

  /** A copy sent with TTL t has travelled, on arrival, a walk of exactly limit + 1 - t links from the origin. */
  lemma {:induction false} HopLocality(top: Topology, origin: NodeId, limit: nat, f: State, h: Hop) returns (w: seq<NodeId>)
    requires Inv(top, origin, limit, f) && Sent(f, h)
    ensures WalkBetween(top, origin, h.dst, w) && |w| - 1 == limit + 1 - h.ttl
    decreases limit - h.ttl
  {
    assert HopOk(top, origin, limit, f, h);
    if h.src == origin {
      w := [origin, h.dst];
    } else {
      var u :| Sent(f, Hop(u, h.src, h.ttl + 1));
      var w' := HopLocality(top, origin, limit, f, Hop(u, h.src, h.ttl + 1));
      w := w' + [h.dst];
    }
  }

  /** Only nodes at most `limit` links from the origin ever process the message. */
  lemma SeenWithinReach(top: Topology, origin: NodeId, limit: nat, ds: seq<Delivery>, f: State, v: NodeId)
    requires ValidTopology(top) && limit >= 1 && Reaches(top, origin, limit, ds, f) && v in f.seen
    ensures exists w :: WalkBetween(top, origin, v, w) && 1 <= |w| - 1 <= limit
  {
    ReachableInv(top, origin, limit, ds, f);
    assert NodeOk(top, origin, f, v);
    var t :| t >= 1 && Fed(f, v, t);
    var u :| Sent(f, Hop(u, v, t));
    var w := HopLocality(top, origin, limit, f, Hop(u, v, t));
  }

  lemma Extend(top: Topology, origin: NodeId, limit: nat, ds: seq<Delivery>, before: State, d: Delivery, f: State)
    requires Reaches(top, origin, limit, ds, before) && Takes(top, origin, before, d, f)
    ensures Reaches(top, origin, limit, ds + [d], f)
  {
    var ds' := ds + [d];
    assert ds'[..|ds'| - 1] == ds && ds'[|ds'| - 1] == d;
  }
}
