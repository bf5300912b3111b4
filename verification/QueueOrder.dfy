/** The order of private messages: letters wait, are drained and go out in the order in which they were queued. */
module QueueOrder {
  import opened Outcomes
  import opened PendingQueue

  /** Positions that only go up. */
  ghost predicate Increasing(at: seq<nat>) {
    forall i, j :: 0 <= i < j < |at| ==> at[i] < at[j]
  }

  // ----- Waiting lists and drains -----

  /** Event `i` of a run puts letter `x` into a waiting list, from its submission or from a drain that found no session. */
  ghost predicate QueuedAt(es: seq<Event>, i: nat, x: Letter) {
    && i < |es|
    && var q, e := Run(es[..i]), es[i];
    && x.peer !in q.established
    && ((e.Submit? && Submitted(q, e) == x)
        || (e.DrainNext? && e.drain < |q.drains| && q.drains[e.drain] != [] && q.drains[e.drain][0] == x))
  }

  /** Letters that were queued by these events, in this order. */
  ghost predicate QueuedBy(es: seq<Event>, xs: seq<Letter>, at: seq<nat>) {
    |at| == |xs| && Increasing(at) && forall i :: 0 <= i < |xs| ==> QueuedAt(es, at[i], xs[i])
  }

  ghost predicate Ordered(es: seq<Event>, xs: seq<Letter>) {
    exists at :: QueuedBy(es, xs, at)
  }

  ghost predicate AllOrdered(es: seq<Event>, q: Queue) {
    && (forall p :: Ordered(es, Waiting(q, p)))
    && (forall d :: 0 <= d < |q.drains| ==> Ordered(es, q.drains[d]))
  }

  lemma QueuedLater(es: seq<Event>, e: Event, i: nat, x: Letter)
    requires QueuedAt(es, i, x)
    ensures QueuedAt(es + [e], i, x)
  {
    assert (es + [e])[..i] == es[..i];
  }

  lemma OrderedLater(es: seq<Event>, e: Event, xs: seq<Letter>)
    requires Ordered(es, xs)
    ensures Ordered(es + [e], xs)
  {
    var at: seq<nat> :| QueuedBy(es, xs, at);
    forall i | 0 <= i < |xs|
      ensures QueuedAt(es + [e], at[i], xs[i])
    {
      QueuedLater(es, e, at[i], xs[i]);
    }
    assert QueuedBy(es + [e], xs, at);
  }

  lemma OrderedAppend(es: seq<Event>, e: Event, xs: seq<Letter>, x: Letter)
    requires Ordered(es, xs) && QueuedAt(es + [e], |es|, x)
    ensures Ordered(es + [e], xs + [x])
  {
    var at: seq<nat> :| QueuedBy(es, xs, at);
    var at', xs' := at + [|es|], xs + [x];
    forall i | 0 <= i < |xs'|
      ensures QueuedAt(es + [e], at'[i], xs'[i])
    {
      if i < |xs| {
        QueuedLater(es, e, at[i], xs[i]);
      }
    }
    assert forall i :: 0 <= i < |at| ==> QueuedAt(es, at[i], xs[i]) && at[i] < |es|;
    assert QueuedBy(es + [e], xs', at');
  }

  lemma OrderedTail(es: seq<Event>, xs: seq<Letter>)
    requires Ordered(es, xs) && xs != []
    ensures Ordered(es, xs[1..])
  {
    var at: seq<nat> :| QueuedBy(es, xs, at);
    assert QueuedBy(es, xs[1..], at[1..]);
  }

  lemma NothingOrdered(es: seq<Event>)
    ensures Ordered(es, [])
  {
    assert QueuedBy(es, [], []);
  }

  lemma OrderedKept(es: seq<Event>, e: Event, q: Queue)
    requires AllOrdered(es, q)
    ensures AllOrdered(es + [e], q)
  {
    forall p
      ensures Ordered(es + [e], Waiting(q, p))
    {
      OrderedLater(es, e, Waiting(q, p));
    }
    forall d | 0 <= d < |q.drains|
      ensures Ordered(es + [e], q.drains[d])
    {
      OrderedLater(es, e, q.drains[d]);
    }
  }

  /** Sending a letter queues it last or leaves the waiting lists alone. */
  lemma SendOrdered(es: seq<Event>, e: Event, q: Queue, x: Letter, drawn: Id, raises: bool)
    requires AllOrdered(es, q) && (x.peer !in q.established ==> QueuedAt(es + [e], |es|, x))
    ensures AllOrdered(es + [e], SendPrivate(q, x, drawn, raises))
  {
    var q' := SendPrivate(q, x, drawn, raises);
    OrderedKept(es, e, q);
    forall p
      ensures Ordered(es + [e], Waiting(q', p))
    {
      if x.peer !in q.established && p == x.peer {
        OrderedAppend(es, e, Waiting(q, p), x);
      } else {
        assert Waiting(q', p) == Waiting(q, p);
      }
    }
  }

  lemma TurnOrdered(es: seq<Event>, q: Queue, i: nat, drawn: Id, raises: bool)
    requires AllOrdered(es, q) && q == Run(es)
    ensures AllOrdered(es + [DrainNext(i, drawn, raises)], Turn(q, i, drawn, raises))
  {
    var e := DrainNext(i, drawn, raises);
    if i < |q.drains| && q.drains[i] != [] {
      var x, mid := q.drains[i][0], q.(drains := q.drains[i := q.drains[i][1..]]);
      forall d | 0 <= d < |mid.drains|
        ensures Ordered(es, mid.drains[d])
      {
        if d == i {
          OrderedTail(es, q.drains[i]);
        }
      }
      assert forall p :: Waiting(mid, p) == Waiting(q, p);
      assert (es + [e])[..|es|] == es;
      SendOrdered(es, e, mid, x, drawn, raises);
    } else {
      OrderedKept(es, e, q);
    }
  }

  lemma ClearedOrdered(es: seq<Event>, q: Queue, q': Queue, peer: PeerId)
    requires AllOrdered(es, q) && q'.pending == q.pending - {peer}
    requires q'.drains == q.drains || (peer in q.pending && q'.drains == q.drains + [q.pending[peer]])
    ensures AllOrdered(es, q')
  {
    NothingOrdered(es);
    forall p
      ensures Ordered(es, Waiting(q', p))
    {
      assert Waiting(q', p) == if p == peer then [] else Waiting(q, p);
    }
    forall d | 0 <= d < |q'.drains|
      ensures Ordered(es, q'.drains[d])
    {
      assert d == |q.drains| ==> q'.drains[d] == Waiting(q, peer);
    }
  }

  lemma StepOrdered(es: seq<Event>, e: Event)
    requires AllOrdered(es, Run(es))
    ensures AllOrdered(es + [e], Apply(Run(es), e))
  {
    var q, q' := Run(es), Apply(Run(es), e);
    OrderedKept(es, e, q);
    match e
    case Submit(_, _, _, drawn, raises) =>
      assert (es + [e])[..|es|] == es;
      SendOrdered(es, e, q, Submitted(q, e), drawn, raises);
    case DrainNext(i, drawn, raises) => TurnOrdered(es, q, i, drawn, raises);
    case StartDrain(p) =>
      if p in q.pending {
        ClearedOrdered(es + [e], q, q', p);
      }
    case RemovePeer(p) => ClearedOrdered(es + [e], q, q', p);
    case _ => assert forall p :: Waiting(q', p) == Waiting(q, p);
  }

  /**
   On every run, in each waiting list and in each drain the letters stand in the order of the events that queued them.
   */
  lemma {:induction false} QueuedInOrder(es: seq<Event>)
    ensures AllOrdered(es, Run(es))
    decreases |es|
  {
    if es == [] {
      NothingOrdered(es);
    } else {
      QueuedInOrder(es[..|es| - 1]);
      StepOrdered(es[..|es| - 1], es[|es| - 1]);
      assert es == es[..|es| - 1] + [es[|es| - 1]];
    }
  }

  // ----- What a drain sends -----

  function RunFrom(q: Queue, es: seq<Event>): Queue
    decreases |es|
  {
    if es == [] then q else Apply(RunFrom(q, es[..|es| - 1]), es[|es| - 1])
  }

  /** The ids drawn at the turns of drain `i`. */
  function DrawnBy(es: seq<Event>, i: nat): seq<Id>
    decreases |es|
  {
    if es == [] then []
    else
      var e := es[|es| - 1];
      DrawnBy(es[..|es| - 1], i) + if e.DrainNext? && e.drain == i then [e.drawn] else []
  }

  /** The session with the peer stays and no turn of drain `i` raises. */
  ghost predicate Steady(es: seq<Event>, i: nat, peer: PeerId) {
    forall e :: e in es ==> e != EndSession(peer) && e != RemovePeer(peer) && (e.DrainNext? && e.drain == i ==> !e.raises)
  }

  /** The first `k` letters of a drain are among those sent, in order, under these ids, at these positions. */
  ghost predicate SentBy(q: Queue, list: seq<Letter>, drawn: seq<Id>, k: nat, start: nat, at: seq<nat>) {
    && |at| == k <= |list| && k <= |drawn| && Increasing(at)
    && forall n :: 0 <= n < k ==> start <= at[n] < |q.sent| && q.sent[at[n]] == Sent(list[n], drawn[n])
  }

  lemma OnlyGrows(q: Queue, e: Event)
    ensures q.sent <= Apply(q, e).sent && |q.drains| <= |Apply(q, e).drains|
    ensures forall d :: 0 <= d < |q.drains| && !(e.DrainNext? && e.drain == d) ==> Apply(q, e).drains[d] == q.drains[d]
  {
  }

  /** One turn of the drain. */
  lemma TurnSends(q: Queue, i: nat, drawn: Id, list: seq<Letter>, ids: seq<Id>, start: nat, at: seq<nat>)
    requires i < |q.drains| && |at| < |list| && q.drains[i] == list[|at|..] && list[|at|].peer in q.established
    requires SentBy(q, list, ids, |at|, start, at) && |ids| == |at| && start <= |q.sent|
    ensures
      var q' := Turn(q, i, drawn, false);
      && q'.drains == q.drains[i := list[|at| + 1..]] && q'.established == q.established
      && q'.sent == q.sent + [Sent(list[|at|], drawn)]
      && SentBy(q', list, ids + [drawn], |at| + 1, start, at + [|q.sent|])
  {
    assert list[|at|..][1..] == list[|at| + 1..];
  }

  /** Another event, or a turn of the empty drain. */
  lemma OthersSend(q: Queue, q': Queue, list: seq<Letter>, ids: seq<Id>, ids': seq<Id>, k: nat, start: nat, at: seq<nat>)
    requires SentBy(q, list, ids, k, start, at) && q.sent <= q'.sent && ids <= ids'
    ensures SentBy(q', list, ids', k, start, at)
  {
  }

  /** After some events: `at` tells where the letters sent so far are, and the rest of the list is still in the drain. */
  ghost predicate Draining(q: Queue, q': Queue, ids: seq<Id>, i: nat, peer: PeerId, at: seq<nat>)
    requires i < |q.drains|
  {
    var list := q.drains[i];
    && peer in q'.established && q.sent <= q'.sent && i < |q'.drains|
    && |at| == Least(|ids|, |list|) && q'.drains[i] == list[|at|..]
    && SentBy(q', list, ids, |at|, |q.sent|, at)
  }

  lemma DrainStep(q: Queue, mid: Queue, ids: seq<Id>, e: Event, i: nat, peer: PeerId, at: seq<nat>) returns (at': seq<nat>)
    requires i < |q.drains| && Draining(q, mid, ids, i, peer, at) && Steady([e], i, peer)
    requires forall x :: x in q.drains[i] ==> x.peer == peer
    ensures Draining(q, Apply(mid, e), ids + if e.DrainNext? && e.drain == i then [e.drawn] else [], i, peer, at')
  {
    var list, ids' := q.drains[i], ids + if e.DrainNext? && e.drain == i then [e.drawn] else [];
    assert e in [e];
    OnlyGrows(mid, e);
    if e.DrainNext? && e.drain == i && mid.drains[i] != [] {
      assert list[|at|] in list;
      TurnSends(mid, i, e.drawn, list, ids, |q.sent|, at);
      at' := at + [|mid.sent|];
    } else {
      at' := at;
      OthersSend(mid, Apply(mid, e), list, ids, ids', |at|, |q.sent|, at);
    }
  }

  /**
   Whatever else happens meanwhile, the letters of a drain go out from its front on, one at each of its turns and under the
   id drawn there, so in the order in which they were queued, as long as the session stays and no send raises.
   */
  lemma {:induction false} DrainSendsInOrder(q: Queue, es: seq<Event>, i: nat, peer: PeerId) returns (at: seq<nat>)
    requires i < |q.drains| && peer in q.established && Steady(es, i, peer)
    requires forall x :: x in q.drains[i] ==> x.peer == peer
    ensures Draining(q, RunFrom(q, es), DrawnBy(es, i), i, peer, at)
    decreases |es|
  {
    if es == [] {
      at := [];
    } else {
      var front, e := es[..|es| - 1], es[|es| - 1];
      assert e in es && forall f :: f in front ==> f in es;
      at := DrainSendsInOrder(q, front, i, peer);
      at := DrainStep(q, RunFrom(q, front), DrawnBy(front, i), e, i, peer, at);
    }
  }

  /** A session that is established or ends concerns its peer and no letter. */
  lemma SessionEvents(q: Queue, peer: PeerId)
    ensures Apply(q, Establish(peer)) == q.(established := q.established + {peer})
    ensures peer !in Apply(q, EndSession(peer)).established && Apply(q, EndSession(peer)).pending == q.pending
    ensures Apply(q, EndSession(peer)).drains == q.drains && Apply(q, EndSession(peer)).sent == q.sent
    ensures forall p :: p != peer ==> (p in Apply(q, EndSession(peer)).established <==> p in q.established)
  {
  }

  /** Submissions to one peer, one after the other, while there is no session. */
  ghost predicate SubmitsTo(es: seq<Event>, peer: PeerId) {
    forall i :: 0 <= i < |es| ==> es[i].Submit? && es[i].peer == peer
  }

  /** The letters, each under the id its caller gave or else the one drawn for it. */
  function LettersOf(es: seq<Event>, peer: PeerId): seq<Letter>
    requires forall i :: 0 <= i < |es| ==> es[i].Submit?
  {
    seq(|es|, i requires 0 <= i < |es| => Letter(peer, es[i].text, if es[i].given != "" then es[i].given else es[i].drawn))
  }

  /** They wait in the order of submission, behind what waited before. */
  lemma {:induction false} SubmittedWait(q: Queue, es: seq<Event>, peer: PeerId)
    requires SubmitsTo(es, peer) && peer !in q.established
    ensures
      var q' := RunFrom(q, es);
      && q'.established == q.established && q'.sent == q.sent && q'.drains == q.drains
      && Waiting(q', peer) == Waiting(q, peer) + LettersOf(es, peer)
    decreases |es|
  {
    if es == [] {
      assert Waiting(q, peer) + [] == Waiting(q, peer);
    } else {
      var front, e := es[..|es| - 1], es[|es| - 1];
      SubmittedWait(q, front, peer);
      SubmitWaits(RunFrom(q, front), e, peer);
      LettersOfLast(es, peer);
    }
  }

  lemma LettersOfLast(es: seq<Event>, peer: PeerId)
    requires SubmitsTo(es, peer) && es != []
    ensures
      var e := es[|es| - 1];
      LettersOf(es, peer) == LettersOf(es[..|es| - 1], peer)
                             + [Letter(peer, e.text, if e.given != "" then e.given else e.drawn)]
  {
  }

  lemma SubmitWaits(q: Queue, e: Event, peer: PeerId)
    requires e.Submit? && e.peer == peer && peer !in q.established
    ensures
      var q' := Apply(q, e);
      && q'.established == q.established && q'.sent == q.sent && q'.drains == q.drains
      && Waiting(q', peer)
         == Waiting(q, peer) + [Letter(peer, e.text, if e.given != "" then e.given else e.drawn)]
  {
  }

  /** In particular a drain that gets its turns sends the whole list it took. */
  lemma WholeListSent(q: Queue, es: seq<Event>, peer: PeerId) returns (at: seq<nat>)
    requires Sorted(q) && peer in q.pending && peer in q.established && Steady(es, |q.drains|, peer)
    requires |DrawnBy(es, |q.drains|)| >= |q.pending[peer]|
    ensures
      var q' := RunFrom(Drain(q, peer), es);
      SentBy(q', q.pending[peer], DrawnBy(es, |q.drains|), |q.pending[peer]|, |q.sent|, at)
  {
    at := DrainSendsInOrder(Drain(q, peer), es, |q.drains|, peer);
  }
}
