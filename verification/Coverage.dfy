/**
 Which nodes a flood reaches when nothing is lost. A node processes the first copy it gets and discards the others, even
 those with a larger TTL, so the outcome depends on the order of deliveries. A labelling describes one outcome: it numbers
 the covered nodes by the links their first copy had travelled.
 */
module Coverage {
  import opened Finite
  import opened Flood
  import opened FloodTheorems

  type Labelling = map<NodeId, nat>

  /** The first copy that reached `v` came from `u`. */
  ghost predicate Parent(top: Topology, l: Labelling, u: NodeId, v: NodeId) {
    u in l && u in top && v in l && v in top[u] && l[v] == l[u] + 1
  }

  /** A covered node got its copy from a covered one within `limit` links. */
  ghost predicate Placed(top: Topology, origin: NodeId, limit: nat, l: Labelling, v: NodeId) {
    v in l && v in top && l[v] <= limit && if v == origin then l[v] == 0 else exists u :: Parent(top, l, u, v)
  }

  ghost predicate AllPlaced(top: Topology, origin: NodeId, limit: nat, l: Labelling) {
    origin in l && forall v {:trigger Placed(top, origin, limit, l, v)} :: v in l ==> Placed(top, origin, limit, l, v)
  }

  /** It passed the copy on unless it was spent. */
  ghost predicate LabelOk(top: Topology, origin: NodeId, limit: nat, l: Labelling, v: NodeId) {
    Placed(top, origin, limit, l, v) && (l[v] < limit ==> forall w :: w in top[v] ==> w in l)
  }

  ghost predicate Labelled(top: Topology, origin: NodeId, limit: nat, l: Labelling) {
    origin in l && forall v {:trigger LabelOk(top, origin, limit, l, v)} :: v in l ==> LabelOk(top, origin, limit, l, v)
  }

  /** A labelling that leaves out one of some nodes. */
  ghost predicate LeavesOut(top: Topology, origin: NodeId, limit: nat, l: Labelling, targets: set<NodeId>) {
    Labelled(top, origin, limit, l) && !(targets <= l.Keys)
  }

  lemma LabelledPlaced(top: Topology, origin: NodeId, limit: nat, l: Labelling)
    requires Labelled(top, origin, limit, l)
    ensures AllPlaced(top, origin, limit, l)
  {
    forall v | v in l
      ensures Placed(top, origin, limit, l, v)
    {
      assert LabelOk(top, origin, limit, l, v);
    }
  }

  /** A run in which every delivered copy was accepted and nothing is left in flight. */
  ghost predicate Finished(top: Topology, origin: NodeId, limit: nat, ds: seq<Delivery>, f: State) {
    Reaches(top, origin, limit, ds, f) && (forall d :: d in ds ==> d.accepted) && f.flight == []
  }

  // ----- Every finished run leaves a labelling -----

  /** `v` processed a copy with TTL `t`: it passed it on to all its connections, or it was spent and `v` sent nothing. */
  ghost predicate Served(top: Topology, f: State, v: NodeId, t: nat) {
    && v in top && t >= 1 && Fed(f, v, t)
    && (if t == 1 then forall h :: Sent(f, h) ==> h.src != v else forall w :: w in top[v] ==> Sent(f, Hop(v, w, t - 1)))
  }

  lemma ServedExists(top: Topology, origin: NodeId, limit: nat, f: State, v: NodeId)
    requires Inv(top, origin, limit, f) && v in f.seen
    ensures exists t :: Served(top, f, v, t)
  {
    assert NodeOk(top, origin, f, v);
    var t :| t >= 1 && Fed(f, v, t) && (t == 1 || forall w :: w in top[v] ==> Sent(f, Hop(v, w, t - 1)));
    if h :| Sent(f, h) && h.src == v {
      assert HopOk(top, origin, limit, f, h);
      assert Served(top, f, v, h.ttl + 1);
    } else {
      assert Served(top, f, v, t);
    }
  }

  ghost function FirstTtl(top: Topology, f: State, v: NodeId): (t: nat)
    requires exists t :: Served(top, f, v, t)
    ensures Served(top, f, v, t)
  {
    var t :| Served(top, f, v, t);
    t
  }

  ghost function Travelled(top: Topology, origin: NodeId, limit: nat, f: State, v: NodeId): (n: nat)
    requires Inv(top, origin, limit, f) && (v == origin || v in f.seen)
    ensures v == origin ==> n == 0
    ensures v != origin ==> exists t: nat :: Served(top, f, v, t) && 1 <= t <= limit && n == limit + 1 - t
  {
    if v == origin then 0
    else
      ServedExists(top, origin, limit, f, v);
      var t := FirstTtl(top, f, v);
      FedBounded(top, limit, f, v, t);
      limit + 1 - t
  }

  lemma FedBounded(top: Topology, limit: nat, f: State, v: NodeId, t: nat)
    requires WellSent(top, limit, f) && Fed(f, v, t)
    ensures 1 <= t <= limit
  {
    var u :| Sent(f, Hop(u, v, t));
  }

  /** The links that the first copy of a sender had travelled show in the TTL it sends. */
  lemma SenderTravelled(top: Topology, origin: NodeId, limit: nat, f: State, h: Hop)
    requires Inv(top, origin, limit, f) && Sent(f, h)
    ensures h.src in top && (h.src == origin || h.src in f.seen)
    ensures h.ttl <= limit && Travelled(top, origin, limit, f, h.src) == limit - h.ttl
  {
    assert HopOk(top, origin, limit, f, h);
    if h.src != origin {
      var n := Travelled(top, origin, limit, f, h.src);
      var t: nat :| Served(top, f, h.src, t) && 1 <= t <= limit && n == limit + 1 - t;
      assert t > 1;
      assert Sent(f, Hop(h.src, h.dst, t - 1));
    }
  }

  ghost function LabelsOf(top: Topology, origin: NodeId, limit: nat, f: State): Labelling
    requires Inv(top, origin, limit, f)
  {
    map v | v in f.seen + {origin} :: Travelled(top, origin, limit, f, v)
  }

  lemma LabelsOfOk(top: Topology, origin: NodeId, limit: nat, f: State, v: NodeId)
    requires ValidTopology(top) && Inv(top, origin, limit, f) && NothingLost(origin, f) && f.flight == []
    requires origin in top && FirstFan(top, origin, limit, f) && (v == origin || v in f.seen)
    ensures LabelOk(top, origin, limit, LabelsOf(top, origin, limit, f), v)
  {
    var l := LabelsOf(top, origin, limit, f);
    if v != origin {
      var t: nat :| Served(top, f, v, t) && 1 <= t <= limit && l[v] == limit + 1 - t;
      var u :| Sent(f, Hop(u, v, t));
      SenderTravelled(top, origin, limit, f, Hop(u, v, t));
      assert Parent(top, l, u, v);
    }
  }

  lemma LabelsOfLabelled(top: Topology, origin: NodeId, limit: nat, f: State)
    requires ValidTopology(top) && Inv(top, origin, limit, f) && NothingLost(origin, f) && f.flight == []
    requires origin in top && FirstFan(top, origin, limit, f)
    ensures Labelled(top, origin, limit, LabelsOf(top, origin, limit, f))
  {
    var l := LabelsOf(top, origin, limit, f);
    forall v | v in l
      ensures LabelOk(top, origin, limit, l, v)
    {
      LabelsOfOk(top, origin, limit, f, v);
    }
  }

  lemma OriginUnseen(top: Topology, origin: NodeId, f: State)
    requires Relayed(top, origin, f)
    ensures origin !in f.seen
  {
    assert origin in f.seen ==> NodeOk(top, origin, f, origin);
  }

  /** The nodes covered by a finished run carry a labelling. */
  lemma OutcomeLabelled(top: Topology, origin: NodeId, limit: nat, ds: seq<Delivery>, f: State) returns (l: Labelling)
    requires ValidTopology(top) && limit >= 1 && Finished(top, origin, limit, ds, f)
    ensures Labelled(top, origin, limit, l) && l.Keys == f.seen + {origin} && origin !in f.seen
  {
    ReachableInv(top, origin, limit, ds, f);
    LabelsOfLabelled(top, origin, limit, f);
    OriginUnseen(top, origin, f);
    l := LabelsOf(top, origin, limit, f);
  }

  // ----- Every labelling is the outcome of a finished run -----

  /** The nodes in `done` have their first copy, as the labelling says, and exactly their relays have been sent. */
  ghost predicate Underway(top: Topology, origin: NodeId, limit: nat, l: Labelling, done: set<NodeId>, f: State) {
    && origin in done && done <= l.Keys && f.seen == done - {origin}
    && forall h :: Sent(f, h) <==>
         && h.src in done && h.src in l && l[h.src] < limit
         && h.src in top && h.dst in top[h.src] && h.ttl == limit - l[h.src]
  }

  /** Going up from an uncovered node, the first covered one has a child that can be served next. */
  lemma {:induction false} NextServed(top: Topology, origin: NodeId, limit: nat, l: Labelling, done: set<NodeId>,
                                      v: NodeId) returns (u: NodeId, x: NodeId)
    requires AllPlaced(top, origin, limit, l) && origin in done && v in l && v !in done
    ensures u in done && x !in done && x != origin && Parent(top, l, u, x)
    decreases l[v]
  {
    assert Placed(top, origin, limit, l, v);
    var p :| Parent(top, l, p, v);
    if p in done {
      u, x := p, v;
    } else {
      u, x := NextServed(top, origin, limit, l, done, p);
    }
  }

  lemma ServeOne(top: Topology, origin: NodeId, limit: nat, l: Labelling, done: set<NodeId>, f: State, k: nat, x: NodeId)
    requires AllPlaced(top, origin, limit, l) && Underway(top, origin, limit, l, done, f) && WellSent(top, limit, f)
    requires x in l && x !in done && l[x] >= 1
    requires k < |f.flight| && f.flight[k].dst == x && f.flight[k].ttl == limit + 1 - l[x]
    ensures x in top && Underway(top, origin, limit, l, done + {x}, Step(top, origin, f, k, true))
  {
    assert Placed(top, origin, limit, l, x);
    StepDelta(top, origin, limit, f, k, true);
  }

  /** The copy for the next node to serve is in flight. */
  lemma CopyWaits(top: Topology, origin: NodeId, limit: nat, l: Labelling, done: set<NodeId>, f: State,
                  u: NodeId, x: NodeId) returns (k: nat)
    requires AllPlaced(top, origin, limit, l) && Underway(top, origin, limit, l, done, f) && NothingLost(origin, f)
    requires u in done && x !in done && x != origin && Parent(top, l, u, x)
    ensures k < |f.flight| && f.flight[k].dst == x && f.flight[k].ttl == limit + 1 - l[x]
  {
    assert Placed(top, origin, limit, l, x);
    var h := Hop(u, x, limit - l[u]);
    assert Sent(f, h);
    k :| 0 <= k < |f.flight| && f.flight[k] == h;
  }

  lemma {:induction false} Serve(top: Topology, origin: NodeId, limit: nat, l: Labelling, done: set<NodeId>,
                                 ds: seq<Delivery>, f: State) returns (ds': seq<Delivery>, f': State)
    requires ValidTopology(top) && limit >= 1 && AllPlaced(top, origin, limit, l) && Underway(top, origin, limit, l, done, f)
    requires Reaches(top, origin, limit, ds, f) && forall d :: d in ds ==> d.accepted
    ensures Underway(top, origin, limit, l, l.Keys, f')
    ensures Reaches(top, origin, limit, ds', f') && forall d :: d in ds' ==> d.accepted
    decreases l.Keys - done
  {
    if done == l.Keys {
      ds', f' := ds, f;
    } else {
      var v :| v in l && v !in done;
      var u, x := NextServed(top, origin, limit, l, done, v);
      ReachableInv(top, origin, limit, ds, f);
      var k := CopyWaits(top, origin, limit, l, done, f, u, x);
      ServeOne(top, origin, limit, l, done, f, k, x);
      var g := Step(top, origin, f, k, true);
      Extend(top, origin, limit, ds, f, Delivery(k, true), g);
      ds', f' := Serve(top, origin, limit, l, done + {x}, ds + [Delivery(k, true)], g);
    }
  }

  /** A run that serves placed nodes as their labels say and nobody else. */
  lemma ServeAll(top: Topology, origin: NodeId, limit: nat, l: Labelling) returns (ds: seq<Delivery>, f: State)
    requires ValidTopology(top) && limit >= 1 && AllPlaced(top, origin, limit, l)
    ensures Underway(top, origin, limit, l, l.Keys, f)
    ensures Reaches(top, origin, limit, ds, f) && forall d :: d in ds ==> d.accepted
  {
    assert Placed(top, origin, limit, l, origin);
    var start := Start(top, origin, limit);
    forall h {
      FanSends(top, origin, limit, h);
    }
    assert Underway(top, origin, limit, l, {origin}, start);
    ds, f := Serve(top, origin, limit, l, {origin}, [], start);
  }

  /** Once every labelled node has its copy, the rest of the traffic is discarded. */
  lemma {:induction false} Drain(top: Topology, origin: NodeId, limit: nat, l: Labelling, ds: seq<Delivery>, f: State)
      returns (ds': seq<Delivery>, f': State)
    requires ValidTopology(top) && limit >= 1 && Labelled(top, origin, limit, l)
    requires Underway(top, origin, limit, l, l.Keys, f)
    requires Reaches(top, origin, limit, ds, f) && forall d :: d in ds ==> d.accepted
    ensures Finished(top, origin, limit, ds', f') && f'.seen == l.Keys - {origin}
    decreases |f.flight|
  {
    if f.flight == [] {
      ds', f' := ds, f;
    } else {
      var h := f.flight[0];
      ReachableInv(top, origin, limit, ds, f);
      assert Sent(f, h);
      assert LabelOk(top, origin, limit, l, h.src);
      var g := Step(top, origin, f, 0, true);
      assert g == f.(flight := f.flight[1..]);
      assert forall e :: Sent(g, e) <==> Sent(f, e);
      Extend(top, origin, limit, ds, f, Delivery(0, true), g);
      ds', f' := Drain(top, origin, limit, l, ds + [Delivery(0, true)], g);
    }
  }

  lemma LabellingRealised(top: Topology, origin: NodeId, limit: nat, l: Labelling) returns (ds: seq<Delivery>, f: State)
    requires ValidTopology(top) && limit >= 1 && Labelled(top, origin, limit, l)
    ensures Finished(top, origin, limit, ds, f) && f.seen == l.Keys - {origin}
  {
    LabelledPlaced(top, origin, limit, l);
    ds, f := ServeAll(top, origin, limit, l);
    ds, f := Drain(top, origin, limit, l, ds, f);
  }

  /** The sets of nodes that finished runs cover are exactly the labelled ones. */
  lemma FloodOutcomes(top: Topology, origin: NodeId, limit: nat, covered: set<NodeId>)
    requires ValidTopology(top) && limit >= 1
    ensures (exists ds, f :: Finished(top, origin, limit, ds, f) && f.seen + {origin} == covered)
       <==> (exists l :: Labelled(top, origin, limit, l) && l.Keys == covered)
  {
    if ds, f :| Finished(top, origin, limit, ds, f) && f.seen + {origin} == covered {
      var l := OutcomeLabelled(top, origin, limit, ds, f);
    }
    if l :| Labelled(top, origin, limit, l) && l.Keys == covered {
      var ds, f := LabellingRealised(top, origin, limit, l);
      assert f.seen + {origin} == covered;
    }
  }

  /** Coverage, exactly: every finished run covers some nodes if and only if no labelling leaves out one of them. */
  lemma FloodCoverage(top: Topology, origin: NodeId, limit: nat, targets: set<NodeId>)
    requires ValidTopology(top) && limit >= 1
    ensures (forall ds, f :: Finished(top, origin, limit, ds, f) ==> targets <= f.seen + {origin})
       <==> !exists l :: LeavesOut(top, origin, limit, l, targets)
  {
    if ds, f :| Finished(top, origin, limit, ds, f) && !(targets <= f.seen + {origin}) {
      var l := OutcomeLabelled(top, origin, limit, ds, f);
      assert LeavesOut(top, origin, limit, l, targets);
    }
    if l :| LeavesOut(top, origin, limit, l, targets) {
      var ds, f := LabellingRealised(top, origin, limit, l);
      assert f.seen + {origin} == l.Keys;
    }
  }

  // ----- Conditions on the network -----

  ghost predicate Connected(top: Topology, origin: NodeId) {
    forall v :: v in top ==> exists w :: WalkBetween(top, origin, v, w)
  }

  /** A walk that visits no node twice. */
  ghost predicate SimpleWalk(top: Topology, w: seq<NodeId>) {
    Walk(top, w) && forall i, j :: 0 <= i < j < |w| ==> w[i] != w[j]
  }

  /** A simple walk of limit + 1 links from the origin. */
  ghost predicate Overlong(top: Topology, origin: NodeId, limit: nat, w: seq<NodeId>) {
    SimpleWalk(top, w) && w[0] == origin && |w| - 1 == limit + 1
  }

  /** A walk out of a set of nodes crosses its boundary. */
  lemma {:induction false} Boundary(top: Topology, w: seq<NodeId>, inside: set<NodeId>) returns (u: NodeId, x: NodeId)
    requires Walk(top, w) && w[0] in inside && w[|w| - 1] !in inside
    ensures u in inside && u in top && x in top[u] && x !in inside
    decreases |w|
  {
    if w[1] in inside {
      u, x := Boundary(top, w[1..], inside);
    } else {
      u, x := w[0], w[1];
    }
  }

  /** The first copy of a node came over a walk whose labels count up from the origin. */
  lemma {:induction false} LabelWalk(top: Topology, origin: NodeId, limit: nat, l: Labelling, v: NodeId)
      returns (w: seq<NodeId>)
    requires Labelled(top, origin, limit, l) && v in l
    ensures WalkBetween(top, origin, v, w) && |w| == l[v] + 1
    ensures forall i :: 0 <= i < |w| ==> w[i] in l && l[w[i]] == i
    decreases l[v]
  {
    assert LabelOk(top, origin, limit, l, v);
    if v == origin {
      w := [origin];
    } else {
      var u :| Parent(top, l, u, v);
      var w' := LabelWalk(top, origin, limit, l, u);
      w := w' + [v];
    }
  }

  /** Leaving out a node that is connected takes a simple walk of limit + 1 links. */
  lemma LeavingOutNeedsLongWalk(top: Topology, origin: NodeId, limit: nat, l: Labelling, missed: NodeId)
      returns (w: seq<NodeId>)
    requires Labelled(top, origin, limit, l) && missed !in l && exists out :: WalkBetween(top, origin, missed, out)
    ensures Overlong(top, origin, limit, w)
  {
    var out :| WalkBetween(top, origin, missed, out);
    var u, x := Boundary(top, out, l.Keys);
    assert LabelOk(top, origin, limit, l, u);
    var w' := LabelWalk(top, origin, limit, l, u);
    w := w' + [x];
  }

  /** With no simple walk of limit + 1 links, every finished run covers every node that is connected. */
  lemma ShortWalksCovered(top: Topology, origin: NodeId, limit: nat, ds: seq<Delivery>, f: State, v: NodeId)
    requires ValidTopology(top) && limit >= 1 && exists w :: WalkBetween(top, origin, v, w)
    requires !exists w :: Overlong(top, origin, limit, w)
    requires Finished(top, origin, limit, ds, f)
    ensures v == origin || v in f.seen
  {
    var l := OutcomeLabelled(top, origin, limit, ds, f);
    if v !in l {
      var w := LeavingOutNeedsLongWalk(top, origin, limit, l, v);
    }
  }

  lemma {:induction false} WalkFits(top: Topology, w: seq<NodeId>)
    requires ValidTopology(top) && SimpleWalk(top, w) && |w| >= 2
    ensures |w| <= |top.Keys|
  {
    var visited := set i | 0 <= i < |w| :: w[i];
    DistinctCount(w);
    forall i | 0 <= i < |w|
      ensures w[i] in top
    {
      assert i > 0 ==> w[i - 1] in top && w[i - 1 + 1] in top[w[i - 1]];
    }
    SubsetSize(visited, top.Keys);
  }

  lemma {:induction false} DistinctCount(w: seq<NodeId>)
    requires forall i, j :: 0 <= i < j < |w| ==> w[i] != w[j]
    ensures |set i | 0 <= i < |w| :: w[i]| == |w|
  {
    if w != [] {
      var n := |w| - 1;
      var front := w[..n];
      DistinctCount(front);
      assert (set i | 0 <= i < |w| :: w[i]) == (set i | 0 <= i < |front| :: front[i]) + {w[n]};
    }
  }

  /** In particular in a network of at most limit + 1 nodes. */
  lemma SmallNetworksCovered(top: Topology, origin: NodeId, limit: nat, ds: seq<Delivery>, f: State, v: NodeId)
    requires ValidTopology(top) && limit >= 1 && |top.Keys| <= limit + 1 && exists w :: WalkBetween(top, origin, v, w)
    requires Finished(top, origin, limit, ds, f)
    ensures v == origin || v in f.seen
  {
    if w :| Overlong(top, origin, limit, w) {
      WalkFits(top, w);
    }
    ShortWalksCovered(top, origin, limit, ds, f, v);
  }

  // ----- A network that is not always covered, for every limit -----

  /** A cycle of nodes 0 to `limit`, and one more node that only node `limit` is connected to. */
  function Lasso(limit: nat): Topology
    requires limit >= 2
  {
    map v: nat | v < limit + 2 :: LassoLinks(limit, v)
  }

  function LassoLinks(limit: nat, v: nat): seq<NodeId>
    requires limit >= 2
  {
    if v == 0 then [1, limit]
    else if v < limit then [v - 1, v + 1]
    else if v == limit then [limit - 1, 0, limit + 1]
    else [limit]
  }

  lemma {:induction false} CycleWalk(limit: nat, v: nat) returns (w: seq<NodeId>)
    requires limit >= 2 && v <= limit
    ensures WalkBetween(Lasso(limit), 0, v, w)
    decreases v
  {
    if v == 0 {
      w := [0];
    } else {
      var w' := CycleWalk(limit, v - 1);
      w := w' + [v];
    }
  }

  lemma LassoSize(limit: nat)
    requires limit >= 2
    ensures |Lasso(limit).Keys| == limit + 2
  {
    assert Lasso(limit).Keys == Indices(limit + 2);
  }

  lemma LassoConnected(limit: nat)
    requires limit >= 2
    ensures ValidTopology(Lasso(limit)) && Connected(Lasso(limit), 0) && |Lasso(limit).Keys| == limit + 2
    ensures WalkBetween(Lasso(limit), 0, limit + 1, [0, limit, limit + 1])
  {
    var top := Lasso(limit);
    assert WalkBetween(top, 0, limit + 1, [0, limit, limit + 1]) by { assert top[0] == [1, limit]; }
    forall v | v in top
      ensures exists w :: WalkBetween(top, 0, v, w)
    {
      if v <= limit {
        var w := CycleWalk(limit, v);
      }
    }
    LassoSize(limit);
  }

  function RoundTheCycle(n: nat): (l: Labelling)
    ensures forall v: NodeId :: v in l <==> v <= n
    ensures forall v: NodeId :: v in l ==> l[v] == v
  {
    if n == 0 then map[0 := 0] else RoundTheCycle(n - 1)[n := n]
  }

  lemma LassoLabelled(limit: nat)
    requires limit >= 2
    ensures Labelled(Lasso(limit), 0, limit, RoundTheCycle(limit))
  {
    var top, l := Lasso(limit), RoundTheCycle(limit);
    forall v | v in l
      ensures LabelOk(top, 0, limit, l, v)
    {
      if v != 0 {
        assert top[v - 1] == LassoLinks(limit, v - 1);
        assert Parent(top, l, v - 1, v);
      }
    }
  }

  /**
   Neither bound can be raised, for any limit: in this connected network of limit + 2 nodes a finished run without losses
   misses a node two links from the origin. Node `limit` first sees the copy that came the long way round, has nothing
   left to relay, and discards the origin's own copy.
   */
  lemma CoverageBoundIsSharp(limit: nat) returns (ds: seq<Delivery>, f: State)
    requires limit >= 2
    ensures ValidTopology(Lasso(limit)) && Connected(Lasso(limit), 0) && |Lasso(limit).Keys| == limit + 2
    ensures WalkBetween(Lasso(limit), 0, limit + 1, [0, limit, limit + 1])
    ensures Finished(Lasso(limit), 0, limit, ds, f) && limit + 1 !in f.seen
  {
    LassoConnected(limit);
    LassoLabelled(limit);
    ds, f := LabellingRealised(Lasso(limit), 0, limit, RoundTheCycle(limit));
  }
}
