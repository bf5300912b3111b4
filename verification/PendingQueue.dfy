/**
 Private messages waiting for a session (`daemon/mesh.py`). When a handshake completes, two drains are started for the
 same peer; a drain takes the whole waiting list and sends it one message at a time, sleeping in between, while new
 messages, session losses and peer removals go on. Every encrypted message goes out under an id drawn when its payload is
 built.
 */
module PendingQueue {
  import opened Outcomes

  type PeerId = string

  /** A message id; drawn ids are never empty, and an empty id given by a caller counts as none. */
  type Id = s: string | s != "" witness "-"

  /** A submitted message, with the id that its submission returns. */
  datatype Letter = Letter(peer: PeerId, text: string, id: Id)

  /** A letter on the wire. */
  datatype Sent = Sent(letter: Letter, wire: Id)

  /** `pending`, the lists held by running drains, the letters sent encrypted or dropped, and the peers with a session. */
  datatype Queue = Queue(
    pending: map<PeerId, seq<Letter>>,
    drains: seq<seq<Letter>>,
    sent: seq<Sent>,
    dropped: multiset<Letter>,
    established: set<PeerId>)

  /** `drawn` is the id that a payload built by the event gets, `raises` whether sending it ends in an exception. */
  datatype Event =
    | Submit(peer: PeerId, text: string, given: string, drawn: Id, raises: bool)
    | Establish(peer: PeerId)
    | EndSession(peer: PeerId)
    | StartDrain(peer: PeerId)
    | DrainNext(drain: nat, drawn: Id, raises: bool)
    | RemovePeer(peer: PeerId)

  const EMPTY := Queue(map[], [], [], multiset{}, {})

  function Waiting(q: Queue, peer: PeerId): seq<Letter> {
    if peer in q.pending then q.pending[peer] else []
  }

  /** The id a submission returns: that of the payload it builds, or the one the letter waits under. */
  function ReturnedId(q: Queue, peer: PeerId, given: string, drawn: Id): Id {
    if peer !in q.established && given != "" then given else drawn
  }

  function Submitted(q: Queue, e: Event): Letter
    requires e.Submit?
  {
    Letter(e.peer, e.text, ReturnedId(q, e.peer, e.given, e.drawn))
  }

  /** `send_private_message`: without a session the letter waits; otherwise it is sent under the drawn id, or lost. */
  function SendPrivate(q: Queue, x: Letter, drawn: Id, raises: bool): Queue {
    if x.peer !in q.established then q.(pending := q.pending[x.peer := Waiting(q, x.peer) + [x]])
    else if raises then q.(dropped := q.dropped + multiset{x})
    else q.(sent := q.sent + [Sent(x, drawn)])
  }

  /** `_send_pending_private_messages`: pop the whole list. */
  function Drain(q: Queue, peer: PeerId): Queue {
    if peer !in q.pending then q
    else q.(pending := q.pending - {peer}, drains := q.drains + [q.pending[peer]])
  }

  /** One turn of a drain: its next letter is sent through `send_private_message` again, with the id it waited under. */
  function Turn(q: Queue, i: nat, drawn: Id, raises: bool): Queue {
    if i >= |q.drains| || q.drains[i] == [] then q
    else SendPrivate(q.(drains := q.drains[i := q.drains[i][1..]]), q.drains[i][0], drawn, raises)
  }

  function Remove(q: Queue, peer: PeerId): Queue {
    q.(pending := q.pending - {peer}, dropped := q.dropped + multiset(Waiting(q, peer)),
       established := q.established - {peer})
  }

  function Apply(q: Queue, e: Event): Queue {
    match e
    case Submit(_, _, _, drawn, raises) => SendPrivate(q, Submitted(q, e), drawn, raises)
    case Establish(p) => q.(established := q.established + {p})
    case EndSession(p) => q.(established := q.established - {p})
    case StartDrain(p) => Drain(q, p)
    case DrainNext(i, drawn, raises) => Turn(q, i, drawn, raises)
    case RemovePeer(p) => Remove(q, p)
  }

  function Run(es: seq<Event>): Queue
    decreases |es|
  {
    if es == [] then EMPTY else Apply(Run(es[..|es| - 1]), es[|es| - 1])
  }

  // ----- Conservation -----

  /** All letters held by drains. */
  function Held(drains: seq<seq<Letter>>): multiset<Letter> {
    if drains == [] then multiset{} else multiset(drains[0]) + Held(drains[1..])
  }

  function Letters(sent: seq<Sent>): seq<Letter> {
    seq(|sent|, i requires 0 <= i < |sent| => sent[i].letter)
  }

  /** How often a letter occurs in the queue's four places together. */
  function Copies(q: Queue, x: Letter): nat {
    multiset(Waiting(q, x.peer))[x] + Held(q.drains)[x] + multiset(Letters(q.sent))[x] + q.dropped[x]
  }

  /** How often a letter was submitted. */
  function Submissions(es: seq<Event>, x: Letter): nat
    decreases |es|
  {
    if es == [] then 0
    else
      var front, e := es[..|es| - 1], es[|es| - 1];
      Submissions(front, x) + if e.Submit? && Submitted(Run(front), e) == x then 1 else 0
  }

  /** Letters wait under their own peer. */
  ghost predicate Sorted(q: Queue) {
    forall p, i :: p in q.pending && 0 <= i < |q.pending[p]| ==> q.pending[p][i].peer == p
  }

  lemma {:induction false} HeldAppend(drains: seq<seq<Letter>>, d: seq<Letter>)
    ensures Held(drains + [d]) == Held(drains) + multiset(d)
    decreases |drains|
  {
    if drains == [] {
      assert (drains + [d])[1..] == [];
    } else {
      assert (drains + [d])[1..] == drains[1..] + [d];
      HeldAppend(drains[1..], d);
    }
  }

  lemma {:induction false} HeldTake(drains: seq<seq<Letter>>, i: nat)
    requires i < |drains| && drains[i] != []
    ensures Held(drains) == Held(drains[i := drains[i][1..]]) + multiset{drains[i][0]}
    decreases i
  {
    var after := drains[i := drains[i][1..]];
    if i == 0 {
      assert drains[0] == [drains[0][0]] + drains[0][1..];
      assert after[1..] == drains[1..];
    } else {
      assert after[1..] == drains[1..][i - 1 := drains[i][1..]];
      HeldTake(drains[1..], i - 1);
    }
  }

  lemma LettersAppend(sent: seq<Sent>, s: Sent)
    ensures multiset(Letters(sent + [s])) == multiset(Letters(sent)) + multiset{s.letter}
  {
    assert Letters(sent + [s]) == Letters(sent) + [s.letter];
  }

  lemma SendPrivateCounts(q: Queue, y: Letter, drawn: Id, raises: bool, x: Letter)
    requires Sorted(q)
    ensures
      var q' := SendPrivate(q, y, drawn, raises);
      Sorted(q') && Copies(q', x) == Copies(q, x) + if x == y then 1 else 0
  {
    if y.peer !in q.established {
      assert multiset(Waiting(q, y.peer) + [y]) == multiset(Waiting(q, y.peer)) + multiset{y};
    } else if !raises {
      LettersAppend(q.sent, Sent(y, drawn));
    }
  }

  lemma DrainCounts(q: Queue, p: PeerId, x: Letter)
    requires Sorted(q)
    ensures Sorted(Drain(q, p)) && Copies(Drain(q, p), x) == Copies(q, x)
  {
    if p in q.pending {
      HeldAppend(q.drains, q.pending[p]);
    }
  }

  lemma TurnCounts(q: Queue, i: nat, drawn: Id, raises: bool, x: Letter)
    requires Sorted(q)
    ensures Sorted(Turn(q, i, drawn, raises)) && Copies(Turn(q, i, drawn, raises), x) == Copies(q, x)
  {
    if i < |q.drains| && q.drains[i] != [] {
      HeldTake(q.drains, i);
      SendPrivateCounts(q.(drains := q.drains[i := q.drains[i][1..]]), q.drains[i][0], drawn, raises, x);
    }
  }

  lemma RemoveCounts(q: Queue, p: PeerId, x: Letter)
    requires Sorted(q)
    ensures Sorted(Remove(q, p)) && Copies(Remove(q, p), x) == Copies(q, x)
  {
  }

  /** Only a submission changes the number of copies, and only of its own letter. */
  lemma ApplyCounts(q: Queue, e: Event, x: Letter)
    requires Sorted(q)
    ensures Sorted(Apply(q, e))
    ensures Copies(Apply(q, e), x) == Copies(q, x) + if e.Submit? && Submitted(q, e) == x then 1 else 0
  {
    match e
    case Submit(_, _, _, drawn, raises) => SendPrivateCounts(q, Submitted(q, e), drawn, raises, x);
    case StartDrain(p) => DrainCounts(q, p, x);
    case DrainNext(i, drawn, raises) => TurnCounts(q, i, drawn, raises, x);
    case RemovePeer(p) => RemoveCounts(q, p, x);
    case _ =>
  }

  /**
   Conservation: under any interleaving of submissions, drains, session changes and removals, each letter occurs in the
   waiting lists, the drains, the sent and the dropped letters together exactly as often as it was submitted.
   */
  lemma {:induction false} PendingConserved(es: seq<Event>, x: Letter)
    ensures Sorted(Run(es)) && Copies(Run(es), x) == Submissions(es, x)
    decreases |es|
  {
    if es != [] {
      PendingConserved(es[..|es| - 1], x);
      ApplyCounts(Run(es[..|es| - 1]), es[|es| - 1], x);
    }
  }

  lemma {:induction false} HeldIn(drains: seq<seq<Letter>>, i: nat, x: Letter)
    requires i < |drains| && x in drains[i]
    ensures Held(drains)[x] >= 1
    decreases i
  {
    if i > 0 {
      HeldIn(drains[1..], i - 1, x);
    }
  }

  lemma {:induction false} HeldTwice(drains: seq<seq<Letter>>, i: nat, j: nat, x: Letter)
    requires i < j < |drains|
    ensures x in drains[i] && x in drains[j] ==> Held(drains)[x] >= 2
    decreases i
  {
    if i == 0 {
      if x in drains[j] {
        HeldIn(drains[1..], j - 1, x);
      }
    } else {
      HeldTwice(drains[1..], i - 1, j - 1, x);
    }
  }

  /** A letter submitted once is in exactly one of the four places, and never in two drains. */
  lemma SubmittedOnce(es: seq<Event>, x: Letter)
    requires Submissions(es, x) == 1
    ensures
      var q := Run(es);
      && multiset(Waiting(q, x.peer))[x] + Held(q.drains)[x] + multiset(Letters(q.sent))[x] + q.dropped[x] == 1
      && forall i, j :: 0 <= i < j < |q.drains| ==> x !in q.drains[i] || x !in q.drains[j]
  {
    PendingConserved(es, x);
    var q := Run(es);
    forall i, j | 0 <= i < j < |q.drains|
      ensures x !in q.drains[i] || x !in q.drains[j]
    {
      HeldTwice(q.drains, i, j, x);
    }
  }

  // ----- The queue as the daemon mutates it -----

  /** Every method keeps the letters under their peers and accounts for each letter. */
  class PrivateQueue {
    var pending: map<PeerId, seq<Letter>>
    var drains: seq<seq<Letter>>
    var sent: seq<Sent>
    var dropped: multiset<Letter>
    var established: set<PeerId>

    ghost function View(): Queue
      reads this
    {
      Queue(pending, drains, sent, dropped, established)
    }

    ghost predicate Valid()
      reads this
    {
      Sorted(View())
    }

    constructor ()
      ensures Valid() && View() == EMPTY
    {
      pending, drains, sent, dropped, established := map[], [], [], multiset{}, {};
    }

    /** Exactly one copy of the letter is added: at the end of its peer's list, at the end of what was sent, or lost. */
    method SendLetter(x: Letter, drawn: Id, raises: bool)
      requires Valid()
      modifies this
      ensures Valid() && View() == SendPrivate(old(View()), x, drawn, raises)
      ensures forall y :: Copies(View(), y) == old(Copies(View(), y)) + if y == x then 1 else 0
      ensures x.peer !in established ==> Waiting(View(), x.peer) == old(Waiting(View(), x.peer)) + [x] && sent == old(sent)
      ensures x.peer in established ==> pending == old(pending) && sent == old(sent) + if raises then [] else [Sent(x, drawn)]
      ensures forall p :: p != x.peer ==> Waiting(View(), p) == old(Waiting(View(), p))
      ensures drains == old(drains) && established == old(established)
    {
      forall y {
        SendPrivateCounts(View(), x, drawn, raises, y);
      }
      if x.peer !in established {
        if x.peer !in pending {
          pending := pending[x.peer := []];
        }
        pending := pending[x.peer := pending[x.peer] + [x]];
        assert pending == old(pending)[x.peer := Waiting(old(View()), x.peer) + [x]];
      } else if raises {
        dropped := dropped + multiset{x};
      } else {
        sent := sent + [Sent(x, drawn)];
      }
    }

    /** The caller gets an id unless the send raised; it is the id on the wire if the letter went out at once. */
    method SendPrivateMessage(peer: PeerId, text: string, given: string, drawn: Id, raises: bool) returns (r: Option<Id>)
      requires Valid()
      modifies this
      ensures Valid() && View() == Apply(old(View()), Submit(peer, text, given, drawn, raises))
      ensures r.None? <==> raises && peer in established
      ensures r.Some? ==>
                forall y :: Copies(View(), y) == old(Copies(View(), y)) + if y == Letter(peer, text, r.value) then 1 else 0
      ensures r.Some? && peer in established ==>
                r.value == drawn && sent == old(sent) + [Sent(Letter(peer, text, drawn), drawn)]
      ensures peer !in established ==>
                && r == Some(if given != "" then given else drawn)
                && Waiting(View(), peer) == old(Waiting(View(), peer)) + [Letter(peer, text, r.value)]
    {
      var id: Id := if peer in established || given == "" then drawn else given;
      SendLetter(Letter(peer, text, id), drawn, raises);
      r := if raises && peer in established then None else Some(id);
    }

    /** No letter is added or lost: the waiting list moves into a drain. */
    method StartPendingDrain(peer: PeerId)
      requires Valid()
      modifies this
      ensures Valid() && View() == Drain(old(View()), peer) && peer !in pending && sent == old(sent)
      ensures drains == old(drains) + if peer in old(pending) then [old(pending)[peer]] else []
      ensures forall y :: Copies(View(), y) == old(Copies(View(), y))
    {
      forall y {
        DrainCounts(View(), peer, y);
      }
      if peer in pending {
        drains := drains + [pending[peer]];
        pending := pending - {peer};
      }
    }

    /** One letter leaves the drain for exactly one other place. */
    method ContinueDrain(i: nat, drawn: Id, raises: bool)
      requires Valid()
      modifies this
      ensures Valid() && View() == Turn(old(View()), i, drawn, raises)
      ensures i < |old(drains)| && old(drains)[i] != [] ==>
                var x := old(drains)[i][0];
                && drains == old(drains)[i := old(drains)[i][1..]]
                && (x.peer in established && !raises ==> sent == old(sent) + [Sent(x, drawn)])
                && (x.peer !in established ==> Waiting(View(), x.peer) == old(Waiting(View(), x.peer)) + [x])
      ensures forall y :: Copies(View(), y) == old(Copies(View(), y))
    {
      forall y {
        TurnCounts(View(), i, drawn, raises, y);
      }
      if i < |drains| && drains[i] != [] {
        var x := drains[i][0];
        drains := drains[i := drains[i][1..]];
        SendLetter(x, drawn, raises);
      }
    }

    /** The waiting letters of the peer are accounted for as dropped. */
    method RemovePeer(peer: PeerId)
      requires Valid()
      modifies this
      ensures Valid() && View() == Remove(old(View()), peer) && peer !in pending && peer !in established
      ensures drains == old(drains) && sent == old(sent) && dropped == old(dropped) + multiset(old(Waiting(View(), peer)))
      ensures forall y :: Copies(View(), y) == old(Copies(View(), y))
    {
      forall y {
        RemoveCounts(View(), peer, y);
      }
      if peer in pending {
        dropped := dropped + multiset(pending[peer]);
      }
      pending := pending - {peer};
      established := established - {peer};
    }
  }

  // ----- The id on the wire -----

  /** The id drawn at event `j` is not drawn at another event and not given by the caller of a submission. */
  ghost predicate NewDraw(es: seq<Event>, i: nat, j: nat) {
    i < |es| && j < |es| && Draws(es[i]) && Draws(es[j]) ==>
      (i != j ==> es[i].drawn != es[j].drawn) && (es[i].Submit? ==> es[i].given != es[j].drawn)
  }

  /** Ids are drawn afresh: no two payloads share one, and no caller gives one away in advance. */
  ghost predicate DistinctDraws(es: seq<Event>) {
    forall i, j {:trigger NewDraw(es, i, j)} :: NewDraw(es, i, j)
  }

  predicate Draws(e: Event) {
    e.Submit? || e.DrainNext?
  }

  /** Event `i` submitted letter `x`, and `session` says whether its peer had a session then. */
  ghost predicate SubmittedAt(es: seq<Event>, i: nat, x: Letter, session: bool) {
    && i < |es| && es[i].Submit? && Submitted(Run(es[..i]), es[i]) == x
    && (es[i].peer in Run(es[..i]).established <==> session)
  }

  ghost predicate Queued(es: seq<Event>, x: Letter) {
    exists i :: SubmittedAt(es, i, x, false)
  }

  /** A letter went out under its returned id when it was submitted with a session, or later under the id of a drain. */
  ghost predicate Explained(es: seq<Event>, s: Sent) {
    || (exists i: nat :: SubmittedAt(es, i, s.letter, true) && s.wire == es[i].drawn)
    || (Queued(es, s.letter) && exists j :: 0 <= j < |es| && es[j].DrainNext? && es[j].drawn == s.wire)
  }

  ghost predicate Explains(es: seq<Event>, q: Queue) {
    && (forall p, x :: p in q.pending && x in q.pending[p] ==> Queued(es, x))
    && (forall i, x :: 0 <= i < |q.drains| && x in q.drains[i] ==> Queued(es, x))
    && (forall s :: s in q.sent ==> Explained(es, s))
  }

  lemma SubmittedLater(es: seq<Event>, e: Event, i: nat, x: Letter, session: bool)
    requires SubmittedAt(es, i, x, session)
    ensures SubmittedAt(es + [e], i, x, session)
  {
    assert (es + [e])[..i] == es[..i];
  }

  lemma QueuedLater(es: seq<Event>, e: Event, x: Letter)
    requires Queued(es, x)
    ensures Queued(es + [e], x)
  {
    var i :| SubmittedAt(es, i, x, false);
    SubmittedLater(es, e, i, x, false);
  }

  lemma ExplainedLater(es: seq<Event>, e: Event, s: Sent)
    requires Explained(es, s)
    ensures Explained(es + [e], s)
  {
    if i: nat :| SubmittedAt(es, i, s.letter, true) && s.wire == es[i].drawn {
      SubmittedLater(es, e, i, s.letter, true);
    } else {
      QueuedLater(es, e, s.letter);
      var j :| 0 <= j < |es| && es[j].DrainNext? && es[j].drawn == s.wire;
      assert (es + [e])[j] == es[j];
    }
  }

  lemma ExplainsLater(es: seq<Event>, e: Event, q: Queue)
    requires Explains(es, q)
    ensures Explains(es + [e], q)
  {
    forall x | Queued(es, x) {
      QueuedLater(es, e, x);
    }
    forall s | Explained(es, s) {
      ExplainedLater(es, e, s);
    }
  }

  /** Sending a letter keeps the explanation, when the letter may be queued and its wire id is explained. */
  lemma SendExplained(es: seq<Event>, q: Queue, x: Letter, drawn: Id, raises: bool)
    requires Explains(es, q) && (x.peer !in q.established ==> Queued(es, x))
    requires x.peer in q.established ==> Explained(es, Sent(x, drawn))
    ensures Explains(es, SendPrivate(q, x, drawn, raises))
  {
    var q' := SendPrivate(q, x, drawn, raises);
    forall p, y | p in q'.pending && y in q'.pending[p]
      ensures Queued(es, y)
    {
      if !(p in q.pending && y in q.pending[p]) {
        assert y == x;
      }
    }
  }

  lemma TurnExplained(es: seq<Event>, q: Queue, i: nat, drawn: Id, raises: bool)
    requires Explains(es, q) && exists j :: 0 <= j < |es| && es[j] == DrainNext(i, drawn, raises)
    ensures Explains(es, Turn(q, i, drawn, raises))
  {
    if i < |q.drains| && q.drains[i] != [] {
      var x := q.drains[i][0];
      assert x in q.drains[i];
      var mid := q.(drains := q.drains[i := q.drains[i][1..]]);
      assert forall k, y :: 0 <= k < |mid.drains| && y in mid.drains[k] ==> y in q.drains[k];
      SendExplained(es, mid, x, drawn, raises);
    }
  }

  lemma {:induction false} RunExplained(es: seq<Event>)
    ensures Explains(es, Run(es))
    decreases |es|
  {
    if es != [] {
      var n := |es| - 1;
      var front, e, q := es[..n], es[n], Run(es[..n]);
      assert es == front + [e];
      RunExplained(front);
      ExplainsLater(front, e, q);
      match e
      case Submit(peer, _, _, drawn, raises) =>
        var x := Submitted(q, e);
        assert SubmittedAt(es, n, x, peer in q.established);
        SendExplained(es, q, x, drawn, raises);
      case DrainNext(i, drawn, raises) =>
        assert es[n] == DrainNext(i, drawn, raises);
        TurnExplained(es, q, i, drawn, raises);
      case _ =>
    }
  }

  /** A letter submitted with a session is not also one that waited. */
  lemma OneOrigin(es: seq<Event>, x: Letter, i: nat, j: nat)
    requires DistinctDraws(es) && SubmittedAt(es, i, x, true)
    ensures !SubmittedAt(es, j, x, false)
  {
    assert NewDraw(es, j, i);
  }

  lemma SentExplained(es: seq<Event>, s: Sent)
    requires s in Run(es).sent
    ensures Explained(es, s)
  {
    RunExplained(es);
  }

  lemma DrainIdNew(es: seq<Event>, i: nat, x: Letter, j: nat)
    requires DistinctDraws(es) && SubmittedAt(es, i, x, false) && j < |es| && es[j].DrainNext?
    ensures es[j].drawn != x.id
  {
    assert NewDraw(es, i, j);
  }

  lemma AtOnce(es: seq<Event>, k: nat, x: Letter, wire: Id)
    requires DistinctDraws(es) && SubmittedAt(es, k, x, true) && Explained(es, Sent(x, wire))
    ensures wire == x.id
  {
    if Queued(es, x) {
      var i: nat :| SubmittedAt(es, i, x, false);
      OneOrigin(es, x, k, i);
    }
  }

  lemma Later(es: seq<Event>, k: nat, x: Letter, wire: Id)
    requires DistinctDraws(es) && SubmittedAt(es, k, x, false) && Explained(es, Sent(x, wire))
    ensures wire != x.id
  {
    if i: nat :| SubmittedAt(es, i, x, true) {
      OneOrigin(es, x, i, k);
    } else {
      var j: nat :| j < |es| && es[j].DrainNext? && es[j].drawn == wire;
      DrainIdNew(es, k, x, j);
    }
  }

  /**
   A letter that was sent left under the id its submission returned if and only if the session existed when it was
   submitted: a letter that waited goes out under an id that its caller never learns.
   */
  lemma WireIdIsReturned(es: seq<Event>, k: nat, x: Letter, session: bool, wire: Id)
    requires DistinctDraws(es) && SubmittedAt(es, k, x, session) && Sent(x, wire) in Run(es).sent
    ensures wire == x.id <==> session
  {
    SentExplained(es, Sent(x, wire));
    if session {
      AtOnce(es, k, x, wire);
    } else {
      Later(es, k, x, wire);
    }
  }
}
