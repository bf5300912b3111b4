/**
 A message sent in fragments, with the fragment collector at every node. Fragments are relayed without duplicate
 suppression, so each of them takes every walk its TTL allows: unlike a whole packet, a fragmented message reaches every
 node within seven links in every order of deliveries.
 */
module FragmentFlood {
  import opened Outcomes
  import opened Octets
  import opened Finite
  import opened Chunking
  import Fragments
  import opened Reassembly
  import opened Flood
  import opened FloodTheorems
  import opened Coverage
  import opened Mesh
  import opened Network
  import opened NetworkTheorems
  import opened Cost

  /**
   One run: the network and its actions, what each collector had received before, how a completed packet is read, and the
   broadcast message that `origin` sends as fragments with id `id`, in which receivers read `from` as the sender.
   */
  datatype Scenario = Scenario(
    top: Topology, states: seq<Net>, acts: seq<Action>, past: map<NodeId, seq<Arrival>>, read: Bytes -> Option<Packet>,
    m: MessageId, origin: NodeId, from: NodeId, id: Bytes, packet: Bytes)

  function Parts(x: Scenario): nat {
    |Chunks(x.packet, Fragments.FRAGMENT_SIZE)|
  }

  function PartPacket(x: Scenario, j: nat, ttl: nat): Packet
    requires j < Parts(x)
  {
    Packet(x.from, ttl, Fragment(Some(Fragments.FragmentAt(x.packet, x.id, j))))
  }

  predicate IsPart(p: Packet, id: Bytes) {
    p.content.Fragment? && p.content.part.Some? && p.content.part.value.id == id
  }

  ghost function Originals(x: Scenario): Originals {
    map[x.id := x.packet]
  }

  /** A fragment that carries the id is one of the message's. */
  ghost predicate GenuinePart(x: Scenario, p: Packet) {
    p.content.Fragment? && p.content.part.Some? ==> Genuine(Originals(x), p.content.part.value)
  }

  // ----- The collectors -----

  /** What an action hands to the collector of node `v`; the recorded sender plays no part in completion. */
  ghost function Collected(top: Topology, s: Net, a: Action, v: NodeId): seq<Arrival>
    requires Enabled(top, s, a)
  {
    if !a.Arrive? then []
    else
      var c := s.flight[a.index];
      if c.dst == v && c.packet.sender != v && c.packet.content.Fragment? && c.packet.content.part.Some?
      then [Arrival(c.packet.content.part.value, "")] else []
  }

  function Flat(g: seq<seq<Arrival>>): seq<Arrival> {
    if g == [] then [] else Flat(g[..|g| - 1]) + g[|g| - 1]
  }

  /** What each of the first `k` actions hands to the collector of `v`. */
  ghost function Handed(x: Scenario, v: NodeId, k: nat): (g: seq<seq<Arrival>>)
    requires Trace(x.top, x.states, x.acts) && k <= |x.acts|
    ensures |g| == k && forall i :: 0 <= i < k ==> g[i] == Collected(x.top, x.states[i], x.acts[i], v) && |g[i]| <= 1
  {
    if k == 0 then [] else Handed(x, v, k - 1) + [Collected(x.top, x.states[k - 1], x.acts[k - 1], v)]
  }

  ghost function Past(x: Scenario, v: NodeId): seq<Arrival> {
    if v in x.past then x.past[v] else []
  }

  /** Everything the collector of `v` has received before action `k`. */
  ghost function History(x: Scenario, v: NodeId, k: nat): seq<Arrival>
    requires Trace(x.top, x.states, x.acts) && k <= |x.acts|
  {
    Past(x, v) + Flat(Handed(x, v, k))
  }

  lemma HistoryStep(x: Scenario, v: NodeId, k: nat)
    requires Trace(x.top, x.states, x.acts) && k < |x.acts|
    ensures History(x, v, k + 1) == History(x, v, k) + Collected(x.top, x.states[k], x.acts[k], v)
  {
    var g := Handed(x, v, k + 1);
    assert g[..k] == Handed(x, v, k);
  }

  /** The packet that the handler goes on with is the one that the collector completes; it raises if that does not parse. */
  ghost predicate CollectsAt(x: Scenario, v: NodeId, k: nat)
    requires Trace(x.top, x.states, x.acts) && k < |x.acts|
  {
    var got, a := Collected(x.top, x.states[k], x.acts[k], v), x.acts[k];
    got != [] ==>
      var result := LastResult(History(x, v, k) + got);
      && a.env.whole == (if result.Some? then x.read(result.value.0) else None)
      && (a.env.raises <==> result.Some? && a.env.whole.None?)
  }

  // ----- The run -----

  ghost predicate Sends(a: Action, p: Packet) {
    (a.Send? || a.SendTo?) && a.packet == p
  }

  /** Nothing with the id is lost, unreadable or from a blocked sender. */
  ghost predicate PartReliable(s: Net, a: Action, id: Bytes) {
    (a.Arrive? || a.Lose?) && a.index < |s.flight| && IsPart(s.flight[a.index].packet, id) ==> Accepts(a)
  }

  ghost predicate FragmentRun(x: Scenario) {
    && Trace(x.top, x.states, x.acts) && ReadSender(x.top, x.origin, x.from)
    && x.packet != [] && x.read(x.packet).Some? && x.read(x.packet).value.content == Chat(x.m, None)
    && Parts(x) <= |x.acts|
    && (forall j :: 0 <= j < Parts(x) ==> x.acts[j] == Send(x.origin, PartPacket(x, j, INITIAL_TTL)))
    && (forall i, p {:trigger Sends(x.acts[i], p)} :: 0 <= i < |x.acts| && Sends(x.acts[i], p) ==> GenuinePart(x, p))
    && (forall c :: c in x.states[0].flight ==> GenuinePart(x, c.packet))
    && (forall v :: v in x.past ==> AllGenuine(Originals(x), x.past[v]))
    && (forall i, v {:trigger CollectsAt(x, v, i)} :: 0 <= i < |x.acts| ==> CollectsAt(x, v, i))
    && (forall i {:trigger PartReliable(x.states[i], x.acts[i], x.id)} :: 0 <= i < |x.acts| ==>
          PartReliable(x.states[i], x.acts[i], x.id))
  }

  /** No fragment of the message is left in flight. */
  ghost predicate FragmentsDone(x: Scenario)
    requires |x.states| == |x.acts| + 1
  {
    forall c :: c in x.states[|x.acts|].flight ==> !IsPart(c.packet, x.id)
  }

  ghost predicate FinishedFragments(x: Scenario) {
    FragmentRun(x) && FragmentsDone(x) && AllOnce(x.states[0])
  }

  // ----- Everything with the id is genuine -----

  /** Handlers send fragments only by relaying them. */
  lemma FragmentsRelayed(me: NodeId, links: seq<NodeId>, n: Node, p: Packet, env: Env, c: Copy)
    requires c in OnPacket(me, links, n, p, env).1 && c.packet.content.Fragment?
    ensures c.packet.content == p.content
  {
  }

  lemma {:induction false} FlightGenuine(x: Scenario, k: nat)
    requires FragmentRun(x) && k <= |x.acts|
    ensures forall c :: c in x.states[k].flight ==> GenuinePart(x, c.packet)
  {
    if k > 0 {
      FlightGenuine(x, k - 1);
      var s, a := x.states[k - 1], x.acts[k - 1];
      forall c | c in x.states[k].flight
        ensures GenuinePart(x, c.packet)
      {
        if c !in s.flight {
          match a
          case Send(_, p) => assert Sends(a, p);
          case SendTo(_, _, p) => assert Sends(a, p);
          case Arrive(i, env) =>
            var e := s.flight[i];
            if c.packet.content.Fragment? {
              FragmentsRelayed(e.dst, x.top[e.dst], s.nodes[e.dst], e.packet, env, c);
            }
          case Lose(_) =>
        }
      }
    }
  }

  lemma GenuineConcat(o: Originals, a: seq<Arrival>, b: seq<Arrival>)
    requires AllGenuine(o, a) && AllGenuine(o, b)
    ensures AllGenuine(o, a + b)
  {
  }

  lemma CollectedGenuine(x: Scenario, v: NodeId, k: nat)
    requires Trace(x.top, x.states, x.acts) && k < |x.acts|
    requires forall c :: c in x.states[k].flight ==> GenuinePart(x, c.packet)
    ensures AllGenuine(Originals(x), Collected(x.top, x.states[k], x.acts[k], v))
  {
  }

  lemma {:induction false} HistoryGenuine(x: Scenario, v: NodeId, k: nat)
    requires FragmentRun(x) && k <= |x.acts|
    ensures AllGenuine(Originals(x), History(x, v, k))
    decreases k
  {
    if k > 0 {
      HistoryGenuine(x, v, k - 1);
      HistoryStep(x, v, k - 1);
      FlightGenuine(x, k - 1);
      CollectedGenuine(x, v, k - 1);
      GenuineConcat(Originals(x), History(x, v, k - 1), Collected(x.top, x.states[k - 1], x.acts[k - 1], v));
    }
  }

  // ----- Every fragment takes every walk -----

  /** A copy that is no longer in flight at the end was taken out by some action. */
  lemma {:induction false} CopyLeaves(top: Topology, states: seq<Net>, acts: seq<Action>, k: nat, c: Copy) returns (i: nat)
    requires Trace(top, states, acts) && k <= |acts| && c in states[k].flight && c !in states[|acts|].flight
    ensures k <= i < |acts| && (acts[i].Arrive? || acts[i].Lose?)
    ensures acts[i].index < |states[i].flight| && states[i].flight[acts[i].index] == c
    decreases |acts| - k
  {
    if c in states[k + 1].flight {
      i := CopyLeaves(top, states, acts, k + 1, c);
    } else {
      i := k;
      LeavesNow(top, states[k], acts[k], c);
    }
  }

  lemma LeavesNow(top: Topology, s: Net, a: Action, c: Copy)
    requires Enabled(top, s, a) && c in s.flight && c !in Next(top, s, a).flight
    ensures (a.Arrive? || a.Lose?) && s.flight[a.index] == c
  {
    if a.Arrive? || a.Lose? {
      assert forall e :: e in s.flight ==> e in Without(s.flight, a.index) || e == s.flight[a.index];
    }
  }

  /** Action `i` delivers a fragment of the message, with the given TTL, to `v`. */
  ghost predicate Delivers(x: Scenario, i: nat, v: NodeId, j: nat, ttl: nat)
    requires Trace(x.top, x.states, x.acts) && j < Parts(x)
  {
    && i < |x.acts| && x.acts[i].Arrive? && Accepts(x.acts[i])
    && x.states[i].flight[x.acts[i].index].dst == v
    && x.states[i].flight[x.acts[i].index].packet == PartPacket(x, j, ttl)
  }

  lemma PartDelivered(x: Scenario, k: nat, c: Copy, j: nat, ttl: nat) returns (i: nat)
    requires FragmentRun(x) && FragmentsDone(x) && k <= |x.acts| && c in x.states[k].flight
    requires j < Parts(x) && c.packet == PartPacket(x, j, ttl)
    ensures Delivers(x, i, c.dst, j, ttl)
  {
    assert IsPart(c.packet, x.id);
    i := CopyLeaves(x.top, x.states, x.acts, k, c);
    assert PartReliable(x.states[i], x.acts[i], x.id);
  }

  /** The collector's answer to a fragment of the message: it completes the message or nothing, and never raises. */
  lemma CollectorAnswers(x: Scenario, v: NodeId, i: nat, y: Arrival)
    requires FragmentRun(x) && i < |x.acts| && Collected(x.top, x.states[i], x.acts[i], v) == [y] && y.fragment.id == x.id
    ensures !x.acts[i].env.raises
    ensures x.acts[i].env.whole == if Completes(Originals(x), History(x, v, i) + [y]) then x.read(x.packet) else None
  {
    var xs := History(x, v, i) + [y];
    HistoryGenuine(x, v, i + 1);
    HistoryStep(x, v, i);
    assert xs[|xs| - 1] == y && CollectsAt(x, v, i);
    AnswerFits(Originals(x), xs, x.id);
  }

  lemma AnswerFits(o: Originals, xs: seq<Arrival>, id: Bytes)
    requires xs != [] && AllGenuine(o, xs) && xs[|xs| - 1].fragment.id == id && id in o
    ensures LastResult(xs).Some? <==> Completes(o, xs)
    ensures LastResult(xs).Some? ==> LastResult(xs).value.0 == o[id]
  {
    ReassemblyCorrect(o, xs);
  }

  lemma RelayedOn(x: Scenario, i: nat, v: NodeId, j: nat, ttl: nat, w: NodeId)
    requires FragmentRun(x) && j < Parts(x) && Delivers(x, i, v, j, ttl) && v != x.from && ttl > 1
    requires v in x.top && w in x.top[v]
    ensures Copy(v, w, PartPacket(x, j, ttl - 1)) in x.states[i + 1].flight
  {
    CollectorAnswers(x, v, i, Arrival(Fragments.FragmentAt(x.packet, x.id, j), ""));
    RelaySent(v, x.top[v], x.states[i].nodes[v], PartPacket(x, j, ttl), x.acts[i].env, w);
  }

  /** A fragment with TTL left goes on to every connection, unless reassembly raises. */
  lemma RelaySent(v: NodeId, links: seq<NodeId>, n: Node, p: Packet, env: Env, w: NodeId)
    requires p.sender != v && p.content.Fragment? && !env.raises && p.ttl > 1 && w in links
    ensures Copy(v, w, p.(ttl := p.ttl - 1)) in OnPacket(v, links, n, p, env).1
  {
    var q :| 0 <= q < |links| && links[q] == w;
    assert Relay(v, links, p)[q] == Copy(v, w, p.(ttl := p.ttl - 1));
  }

  /** The fragment arrives at the n-th node of every walk that does not come back to the sender that is read. */
  lemma {:induction false} WalkTravelled(x: Scenario, j: nat, w: seq<NodeId>, n: nat) returns (i: nat)
    requires FragmentRun(x) && FragmentsDone(x) && j < Parts(x)
    requires Walk(x.top, w) && w[0] == x.origin && 1 <= n < |w| && n <= INITIAL_TTL
    requires forall q :: 1 <= q < |w| ==> w[q] != x.from
    ensures Delivers(x, i, w[n], j, INITIAL_TTL + 1 - n)
    decreases n
  {
    assert w[n - 1] in x.top && w[n - 1 + 1] in x.top[w[n - 1]];
    if n == 1 {
      var p, links := PartPacket(x, j, INITIAL_TTL), x.top[x.origin];
      var q :| 0 <= q < |links| && links[q] == w[1];
      assert Broadcast(x.origin, links, p)[q] == Copy(x.origin, w[1], p);
      i := PartDelivered(x, j + 1, Copy(x.origin, w[1], p), j, INITIAL_TTL);
    } else {
      var before := WalkTravelled(x, j, w, n - 1);
      RelayedOn(x, before, w[n - 1], j, INITIAL_TTL + 2 - n, w[n]);
      i := PartDelivered(x, before + 1, Copy(w[n - 1], w[n], PartPacket(x, j, INITIAL_TTL + 1 - n)), j, INITIAL_TTL + 1 - n);
    }
  }

  // ----- All fragments together complete the message -----

  lemma {:induction false} NeverFull(o: Originals, xs: seq<Arrival>, id: Bytes)
    requires id in o && Total(o, id) >= 1
    ensures Outstanding(o, xs, id) != Indices(Total(o, id))
    decreases |xs|
  {
    assert 0 in Indices(Total(o, id));
    if xs != [] {
      NeverFull(o, xs[..|xs| - 1], id);
    }
  }

  /** So some index is always missing from what is outstanding. */
  lemma SomeMissing(o: Originals, xs: seq<Arrival>, id: Bytes) returns (j: nat)
    requires AllGenuine(o, xs) && id in o && Total(o, id) >= 1
    ensures j < Total(o, id) && j !in Outstanding(o, xs, id)
  {
    CollectorTracks(o, xs);
    assert Pieces(o[id], Fragments.PartsOf(Collect(xs), id));
    NeverFull(o, xs, id);
    j :| j in Indices(Total(o, id)) && j !in Outstanding(o, xs, id);
  }

  /** An arrival that does not complete anything adds its index and forgets none. */
  lemma OutstandingGrows(o: Originals, before: seq<Arrival>, y: Arrival, id: Bytes)
    requires id in o && !Completes(o, before + [y])
    ensures Outstanding(o, before, id) <= Outstanding(o, before + [y], id)
    ensures y.fragment.id == id ==> y.fragment.index in Outstanding(o, before + [y], id)
  {
    var xs := before + [y];
    assert xs[..|xs| - 1] == before && xs[|xs| - 1] == y;
  }

  /** Arrival `n` of some completes its packet. */
  ghost predicate Finishes(o: Originals, past: seq<Arrival>, xs: seq<Arrival>, n: nat) {
    n < |xs| && Completes(o, past + xs[..n + 1])
  }

  /** Until a packet completes, what arrives is outstanding. */
  lemma {:induction false} Pending(o: Originals, past: seq<Arrival>, xs: seq<Arrival>, id: Bytes, q: nat)
    requires id in o && q < |xs| && xs[q].fragment.id == id
    requires forall n :: !Finishes(o, past, xs, n)
    ensures xs[q].fragment.index in Outstanding(o, past + xs, id)
    decreases |xs|
  {
    var n := |xs| - 1;
    assert xs[..n + 1] == xs && past + xs == (past + xs[..n]) + [xs[n]];
    assert !Finishes(o, past, xs, n);
    OutstandingGrows(o, past + xs[..n], xs[n], id);
    if q < n {
      forall k: nat
        ensures !Finishes(o, past, xs[..n], k)
      {
        assert !Finishes(o, past, xs, k);
        assert k < n ==> xs[..n][..k + 1] == xs[..k + 1];
      }
      Pending(o, past, xs[..n], id, q);
    }
  }

  /** When all fragments of a packet are among some arrivals, one of these arrivals completes it. */
  lemma SomeCompletion(o: Originals, past: seq<Arrival>, xs: seq<Arrival>, id: Bytes) returns (n: nat)
    requires AllGenuine(o, past + xs) && id in o && Total(o, id) >= 1
    requires forall j :: 0 <= j < Total(o, id) ==> Contains(xs, id, j)
    ensures Finishes(o, past, xs, n)
  {
    var j := SomeMissing(o, past + xs, id);
    assert Contains(xs, id, j);
    var q :| 0 <= q < |xs| && xs[q].fragment.id == id && xs[q].fragment.index == j;
    if forall k :: !Finishes(o, past, xs, k) {
      Pending(o, past, xs, id, q);
    }
    n :| Finishes(o, past, xs, n);
  }

  ghost predicate Contains(xs: seq<Arrival>, id: Bytes, j: int) {
    exists q :: 0 <= q < |xs| && xs[q].fragment.id == id && xs[q].fragment.index == j
  }

  // ----- Histories and actions -----

  /** A fragment that an action hands over is in the history. */
  lemma {:induction false} FlatHas(g: seq<seq<Arrival>>, i: nat, id: Bytes, j: int)
    requires i < |g| && Contains(g[i], id, j)
    ensures Contains(Flat(g), id, j)
    decreases |g|
  {
    var n := |g| - 1;
    var before, got := Flat(g[..n]), g[n];
    if i == n {
      var q :| 0 <= q < |got| && got[q].fragment.id == id && got[q].fragment.index == j;
      assert (before + got)[|before| + q] == got[q];
    } else {
      FlatHas(g[..n], i, id, j);
      var q :| 0 <= q < |before| && before[q].fragment.id == id && before[q].fragment.index == j;
      assert (before + got)[q] == before[q];
    }
  }

  /** Everything in the history was handed over by some action, after what stands before it. */
  lemma {:induction false} FlatBy(g: seq<seq<Arrival>>, n: nat) returns (i: nat)
    requires n < |Flat(g)| && forall k :: 0 <= k < |g| ==> |g[k]| <= 1
    ensures i < |g| && g[i] == [Flat(g)[n]] && Flat(g[..i]) == Flat(g)[..n]
    decreases |g|
  {
    var last := |g| - 1;
    var before := Flat(g[..last]);
    assert Flat(g) == before + g[last];
    if n < |before| {
      i := FlatBy(g[..last], n);
      assert g[..last][..i] == g[..i];
    } else {
      i := last;
      assert Flat(g)[..n] == before;
    }
  }

  /** Action `i` delivers to `v` the fragment that completes the message. */
  ghost predicate CompletesAt(x: Scenario, v: NodeId, i: nat)
    requires Trace(x.top, x.states, x.acts)
  {
    && i < |x.acts| && Accepts(x.acts[i]) && x.states[i].flight[x.acts[i].index].dst == v
    && x.states[i].flight[x.acts[i].index].packet.sender != v
    && x.states[i].flight[x.acts[i].index].packet.content.Fragment?
    && x.acts[i].env.whole == x.read(x.packet)
  }

  lemma CompletionActs(x: Scenario, v: NodeId, i: nat, y: Arrival)
    requires FragmentRun(x) && i < |x.acts| && Collected(x.top, x.states[i], x.acts[i], v) == [y]
    requires Completes(Originals(x), History(x, v, i) + [y])
    ensures CompletesAt(x, v, i)
  {
    var xs := History(x, v, i) + [y];
    assert xs[|xs| - 1] == y;
    CollectorAnswers(x, v, i, y);
    assert PartReliable(x.states[i], x.acts[i], x.id);
  }

  /** The arrival that completes the message, and the action that brought it. */
  lemma CompletionOf(o: Originals, past: seq<Arrival>, g: seq<seq<Arrival>>, id: Bytes) returns (i: nat)
    requires AllGenuine(o, past + Flat(g)) && id in o && Total(o, id) >= 1
    requires forall k :: 0 <= k < |g| ==> |g[k]| <= 1
    requires forall j :: 0 <= j < Total(o, id) ==> Contains(Flat(g), id, j)
    ensures i < |g| && |g[i]| == 1 && Completes(o, past + Flat(g[..i]) + g[i])
  {
    var n := SomeCompletion(o, past, Flat(g), id);
    i := FlatBy(g, n);
    assert past + Flat(g)[..n + 1] == past + Flat(g[..i]) + g[i];
  }

  lemma CompletionIn(x: Scenario, v: NodeId, o: Originals) returns (i: nat)
    requires Trace(x.top, x.states, x.acts) && x.id in o && Total(o, x.id) >= 1
    requires AllGenuine(o, History(x, v, |x.acts|))
    requires forall j :: 0 <= j < Total(o, x.id) ==> Contains(Flat(Handed(x, v, |x.acts|)), x.id, j)
    ensures i < |x.acts| && |Collected(x.top, x.states[i], x.acts[i], v)| == 1
    ensures Completes(o, History(x, v, i) + Collected(x.top, x.states[i], x.acts[i], v))
  {
    var g := Handed(x, v, |x.acts|);
    i := CompletionOf(o, Past(x, v), g, x.id);
    HandedBefore(x, v, |x.acts|, i);
  }

  lemma AllGotCompletes(x: Scenario, v: NodeId) returns (i: nat)
    requires FragmentRun(x)
    requires forall j :: 0 <= j < Parts(x) ==> Contains(Flat(Handed(x, v, |x.acts|)), x.id, j)
    ensures CompletesAt(x, v, i)
  {
    HistoryGenuine(x, v, |x.acts|);
    ChunksRebuild(x.packet, Fragments.FRAGMENT_SIZE);
    i := CompletionIn(x, v, Originals(x));
    var got := Collected(x.top, x.states[i], x.acts[i], v);
    assert got == [got[0]];
    CompletionActs(x, v, i, got[0]);
  }

  lemma HandedBefore(x: Scenario, v: NodeId, k: nat, i: nat)
    requires Trace(x.top, x.states, x.acts) && i <= k <= |x.acts|
    ensures Handed(x, v, k)[..i] == Handed(x, v, i)
  {
  }

  // ----- The result -----

  /** The completed message is processed, unless its id was processed before. */
  lemma CompletionKnown(x: Scenario, v: NodeId, i: nat)
    requires FragmentRun(x) && CompletesAt(x, v, i)
    ensures Knows(x.states[i + 1], v, x.m)
  {
    var c := x.states[i].flight[x.acts[i].index];
    var p := x.read(x.packet).value;
    assert x.m in Handle(v, x.top[v], x.states[i].nodes[v], p, x.acts[i].env).0.processed;
  }

  lemma PartReceived(x: Scenario, v: NodeId, w: seq<NodeId>, j: nat)
    requires FragmentRun(x) && FragmentsDone(x) && j < Parts(x)
    requires WalkBetween(x.top, x.origin, v, w) && 1 <= |w| - 1 <= INITIAL_TTL && forall q :: 1 <= q < |w| ==> w[q] != x.from
    ensures Contains(Flat(Handed(x, v, |x.acts|)), x.id, j)
  {
    var i := WalkTravelled(x, j, w, |w| - 1);
    var got := Collected(x.top, x.states[i], x.acts[i], v);
    assert got[0].fragment == Fragments.FragmentAt(x.packet, x.id, j);
    FlatHas(Handed(x, v, |x.acts|), i, x.id, j);
  }

  lemma ReachedAlong(x: Scenario, v: NodeId, w: seq<NodeId>)
    requires FragmentRun(x) && FragmentsDone(x)
    requires WalkBetween(x.top, x.origin, v, w) && 1 <= |w| - 1 <= INITIAL_TTL && forall q :: 1 <= q < |w| ==> w[q] != x.from
    ensures Knows(x.states[|x.acts|], v, x.m)
  {
    forall j | 0 <= j < Parts(x)
      ensures Contains(Flat(Handed(x, v, |x.acts|)), x.id, j)
    {
      PartReceived(x, v, w, j);
    }
    var i := AllGotCompletes(x, v);
    CompletionKnown(x, v, i);
    StillKnows(x.top, x.states, x.acts, x.m, v, i + 1, |x.acts|);
  }

  /** The part of a walk after its last visit to the author. */
  lemma {:induction false} LastVisit(top: Topology, origin: NodeId, v: NodeId, w: seq<NodeId>) returns (w': seq<NodeId>)
    requires WalkBetween(top, origin, v, w) && v != origin
    ensures WalkBetween(top, origin, v, w') && 2 <= |w'| <= |w| && forall q :: 1 <= q < |w'| ==> w'[q] != origin
    decreases |w|
  {
    if q :| 1 <= q < |w| && w[q] == origin {
      w' := LastVisit(top, origin, v, w[q..]);
    } else {
      w' := w;
    }
  }

  /**
   In every finished reliable run, a message sent in fragments is delivered to the application of every node within seven
   links of its author, the author itself excepted.
   */
  lemma FragmentsReachAll(x: Scenario, v: NodeId, w: seq<NodeId>)
    requires FinishedFragments(x)
    requires v != x.origin && WalkBetween(x.top, x.origin, v, w) && |w| - 1 <= INITIAL_TTL
    ensures v in x.states[|x.acts|].nodes && x.m in x.states[|x.acts|].nodes[v].delivered
  {
    var w' := LastVisit(x.top, x.origin, v, w);
    forall q | 1 <= q < |w'|
      ensures w'[q] != x.from
    {
      assert w'[q - 1] in x.top && w'[q - 1 + 1] in x.top[w'[q - 1]];
    }
    ReachedAlong(x, v, w');
    AtMostOnceDelivery(x.top, x.states, x.acts, |x.acts|);
  }

  /** In one network of nine nodes a whole packet can miss the last node, and a message in fragments never does. */
  lemma FragmentsBeatWhole(m: MessageId) returns (states: seq<Net>, acts: seq<Action>)
    ensures FinishedRun(Lasso(INITIAL_TTL), states, acts, m, 0, 0) && 8 !in Reached(states[|acts|], m)
    ensures forall x: Scenario :: FinishedFragments(x) && x.top == Lasso(INITIAL_TTL) && x.origin == 0 ==>
              8 in Reached(x.states[|x.acts|], x.m)
  {
    LassoConnected(INITIAL_TTL);
    LassoLabelled(INITIAL_TTL);
    RootedValid(Lasso(INITIAL_TTL), 0, 0);
    states, acts := LabellingPerformed(Lasso(INITIAL_TTL), m, 0, 0, RoundTheCycle(INITIAL_TTL));
    forall x: Scenario | FinishedFragments(x) && x.top == Lasso(INITIAL_TTL) && x.origin == 0
      ensures 8 in Reached(x.states[|x.acts|], x.m)
    {
      FragmentsReachAll(x, 8, [0, 7, 8]);
    }
  }
}
