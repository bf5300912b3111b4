/** Two daemons exchanging handshake packets over an unreliable link that may also carry garbage. */
module HandshakeLink {
  import opened Outcomes
  import opened Symbolic
  import opened Noise
  import opened Service
  import opened ServiceProofs
  import opened PeerIds
  import Octets
  import PacketCodec

  /** A handshake packet as its receiver reads it; an empty recipient is none. */
  datatype Letter = Letter(toA: bool, message: Bytes, keyExchange: bool, recipient: PeerId)

  /** Both directories, the ids of the two daemons, and the packets in flight. */
  datatype Link = Link(a: Directory, b: Directory, idA: PeerId, idB: PeerId, flight: seq<Letter>)

  /**
   What becomes of a response: it goes out, there is no route to the peer, or writing it raises, which may also make the
   transport report the peer as disconnected.
   */
  datatype Sending = Sent | NoRoute | Raised(disconnected: bool)

  /** The scheduler's choice: which packet arrives, the ephemeral key drawn, and what becomes of the response. */
  datatype Arrival = Arrival(index: nat, ephemeral: PrivateKey, sending: Sending)

  ghost predicate Valid(l: Link) {
    Sound(l.a) && Sound(l.b)
  }

  /** A disconnect removes the peer; the NOISE handlers then clear the handshake, the KEY_EXCHANGE handler does not. */
  function AfterSending(d: Directory, peer: PeerId, sending: Sending, keyExchange: bool): Directory {
    if !sending.Raised? then d
    else
      var d' := if sending.disconnected then Remove(d, peer) else d;
      if keyExchange then d' else WithoutHandshake(d', peer)
  }

  /** The NOISE handlers drop a packet whose recipient, as read, is another id than their own; KEY_EXCHANGE has no check. */
  predicate Ignored(letter: Letter, own: PeerId) {
    !letter.keyExchange && letter.recipient != [] && letter.recipient != own
  }

  /** One packet handled at the end with id `own`: the directory it leaves and the response that goes out. */
  function HandleLetter(d: Directory, own: PeerId, peer: PeerId, letter: Letter, x: Arrival): (Directory, seq<Letter>) {
    if Ignored(letter, own) then (d, [])
    else
      var (d', r) := Receive(d, peer, letter.message, x.ephemeral, letter.keyExchange);
      if r.None? then (d', [])
      else
        var recipient := ReadRecipient(if letter.keyExchange then [] else peer);
        (AfterSending(d', peer, x.sending, letter.keyExchange),
         if x.sending.Sent? then [Letter(!letter.toA, r.value, letter.keyExchange, recipient)] else [])
  }

  function Deliver(l: Link, x: Arrival): Link
    requires x.index < |l.flight|
  {
    var letter := l.flight[x.index];
    var rest := l.flight[..x.index] + l.flight[x.index + 1..];
    if letter.toA then
      var (d, out) := HandleLetter(l.a, l.idA, Seen(l.idB), letter, x);
      l.(a := d, flight := rest + out)
    else
      var (d, out) := HandleLetter(l.b, l.idB, Seen(l.idA), letter, x);
      l.(b := d, flight := rest + out)
  }

  /** What an end can still contribute: a response if it has no handshake, a final message if it initiated one. */
  function Potential(d: Directory, peer: PeerId): nat {
    if peer !in d.handshakes then 1 else if d.handshakes[peer].role == Initiator then 2 else 0
  }

  function Measure(l: Link): nat {
    2 * |l.flight| + Potential(l.a, Seen(l.idB)) + Potential(l.b, Seen(l.idA))
  }

  /** At one end, a delivered packet costs more potential than the response is worth. */
  lemma ReceiveSpends(d: Directory, peer: PeerId, m: Bytes, e: PrivateKey, keyExchange: bool)
    requires Sound(d)
    ensures
      var (d', r) := Receive(d, peer, m, e, keyExchange);
      Sound(d') && Potential(d', peer) + (if r.Some? then 2 else 0) < Potential(d, peer) + 2
  {
    ApplyKeepsSound(d, OpReceive(peer, m, e, keyExchange));
    if |m| >= KEY_LEN && Respond(Current(d, peer), m, e).1.Ok? {
      RespondOutcome(Current(d, peer), m, e);
    }
  }

  /** The same with what becomes of the response: a failed send gives potential back, but less than the response cost. */
  lemma LetterSpends(d: Directory, own: PeerId, peer: PeerId, letter: Letter, x: Arrival)
    requires Sound(d)
    ensures
      var (d', out) := HandleLetter(d, own, peer, letter, x);
      Sound(d') && Potential(d', peer) + 2 * |out| < Potential(d, peer) + 2
  {
    ReceiveSpends(d, peer, letter.message, x.ephemeral, letter.keyExchange);
  }

  /**
   When sending the response raises, nothing goes out; a NOISE handler has cleared the handshake, a disconnect has removed
   the peer, and otherwise everything stays as processing left it.
   */
  lemma RaisedForgets(d: Directory, own: PeerId, peer: PeerId, letter: Letter, x: Arrival)
    requires x.sending.Raised? && !Ignored(letter, own)
    requires Receive(d, peer, letter.message, x.ephemeral, letter.keyExchange).1.Some?
    ensures
      var (d', out) := HandleLetter(d, own, peer, letter, x);
      var d1 := Receive(d, peer, letter.message, x.ephemeral, letter.keyExchange).0;
      && out == []
      && (peer in d'.handshakes <==> letter.keyExchange && !x.sending.disconnected && peer in d1.handshakes)
      && (peer in d'.sessions <==> !x.sending.disconnected && peer in d1.sessions)
      && (forall other :: other != peer ==> Untouched(d1, d', other))
  {
  }

  /** Every delivery, valid or garbage, answered or not, strictly decreases the measure. */
  lemma DeliverDecreases(l: Link, x: Arrival)
    requires Valid(l) && x.index < |l.flight|
    ensures Valid(Deliver(l, x)) && Measure(Deliver(l, x)) < Measure(l)
  {
    var letter := l.flight[x.index];
    if letter.toA {
      LetterSpends(l.a, l.idA, Seen(l.idB), letter, x);
    } else {
      LetterSpends(l.b, l.idB, Seen(l.idA), letter, x);
    }
  }

  ghost predicate Schedule(l: Link, xs: seq<Arrival>)
    decreases |xs|
  {
    xs == [] || (xs[0].index < |l.flight| && Schedule(Deliver(l, xs[0]), xs[1..]))
  }

  /** With no new initiations the exchange stops: no schedule is longer than the measure it starts from. */
  lemma {:induction false} HandshakeQuiescence(l: Link, xs: seq<Arrival>)
    requires Valid(l) && Schedule(l, xs)
    ensures |xs| <= Measure(l)
    decreases |xs|
  {
    if xs != [] {
      DeliverDecreases(l, xs[0]);
      HandshakeQuiescence(Deliver(l, xs[0]), xs[1..]);
    }
  }

  // ----- When an undisturbed handshake succeeds -----

  /**
   `_initiate_handshake` at the first daemon, for a peer known by `known`. Addresses are kept under ids as read, so under
   another name there is no route and nothing goes out.
   */
  function Begin(l: Link, known: PeerId, ephemeral: PrivateKey): Link {
    var (d, m) := Initiate(l.a, known, ephemeral);
    var out := if m.Ok? && known == Seen(l.idB) then [Letter(false, m.value, false, ReadRecipient(known))] else [];
    l.(a := d, flight := l.flight + out)
  }

  /** Deliver packets one after the other, as long as there are any. */
  function DeliverAll(l: Link, xs: seq<Arrival>): Link
    decreases |xs|
  {
    if xs == [] || xs[0].index >= |l.flight| then l else DeliverAll(Deliver(l, xs[0]), xs[1..])
  }

  function Undisturbed(eb: PrivateKey, e1: PrivateKey, e2: PrivateKey): seq<Arrival> {
    [Arrival(0, eb, Sent), Arrival(0, e1, Sent), Arrival(0, e2, Sent)]
  }

  lemma DeliverFirst(l: Link, x: Arrival, xs: seq<Arrival>)
    ensures DeliverAll(l, [x] + xs) == if x.index >= |l.flight| then l else DeliverAll(Deliver(l, x), xs)
  {
    assert ([x] + xs)[1..] == xs;
  }

  lemma DeliverThree(l: Link, eb: PrivateKey, e1: PrivateKey, e2: PrivateKey)
    requires l.flight != []
    ensures
      var xs := Undisturbed(eb, e1, e2);
      var l1 := Deliver(l, xs[0]);
      DeliverAll(l, xs) ==
      if l1.flight == [] then l1
      else
        var l2 := Deliver(l1, xs[1]);
        if l2.flight == [] then l2 else Deliver(l2, xs[2])
  {
    var xs := Undisturbed(eb, e1, e2);
    assert xs == [xs[0]] + ([xs[1]] + ([xs[2]] + []));
    DeliverFirst(l, xs[0], [xs[1]] + ([xs[2]] + []));
    var l1 := Deliver(l, xs[0]);
    DeliverFirst(l1, xs[1], [xs[2]] + []);
    if l1.flight != [] {
      DeliverFirst(Deliver(l1, xs[1]), xs[2], []);
    }
  }

  /** The only packet in flight passes the check: its response takes its place. */
  lemma DeliverOnly(l: Link, letter: Letter, x: Arrival)
    requires l.flight == [letter] && x.index == 0 && x.sending.Sent? && !letter.keyExchange
    requires letter.recipient == if letter.toA then l.idA else l.idB
    ensures
      var peer := Seen(if letter.toA then l.idB else l.idA);
      var (d, r) := Receive(if letter.toA then l.a else l.b, peer, letter.message, x.ephemeral, false);
      var l' := Deliver(l, x);
      && l' == (if letter.toA then l.(a := d) else l.(b := d)).(flight := l'.flight)
      && l'.flight == if r.Some? then [Letter(!letter.toA, r.value, false, ReadRecipient(peer))] else []
  {
  }

  /** The course of an undisturbed handshake whose packets pass the checks. */
  lemma LettersDelivered(l: Link, ea: PrivateKey, eb: PrivateKey, e1: PrivateKey, e2: PrivateKey,
                         a1: Directory, m1: Bytes, b1: Directory, m2: Bytes, a2: Directory, m3: Bytes, b2: Directory)
    requires l.flight == [] && Seen(l.idA) == l.idA == ReadRecipient(l.idA) && Seen(l.idB) == l.idB == ReadRecipient(l.idB)
    requires Initiate(l.a, l.idB, ea) == (a1, Ok(m1)) && Receive(l.b, l.idA, m1, eb, false) == (b1, Some(m2))
    requires Receive(a1, l.idB, m2, e1, false) == (a2, Some(m3)) && Receive(b1, l.idA, m3, e2, false) == (b2, None)
    ensures DeliverAll(Begin(l, l.idB, ea), Undisturbed(eb, e1, e2)) == Link(a2, b2, l.idA, l.idB, [])
  {
    var l0, xs := Begin(l, l.idB, ea), Undisturbed(eb, e1, e2);
    DeliverOnly(l0, Letter(false, m1, false, l.idB), xs[0]);
    var l1 := Link(a1, b1, l.idA, l.idB, [Letter(true, m2, false, l.idA)]);
    assert Deliver(l0, xs[0]) == l1;
    DeliverOnly(l1, l1.flight[0], xs[1]);
    var l2 := Link(a2, b1, l.idA, l.idB, [Letter(false, m3, false, l.idB)]);
    assert Deliver(l1, xs[1]) == l2;
    DeliverOnly(l2, l2.flight[0], xs[2]);
    DeliverThree(l0, eb, e1, e2);
  }

  /** Both ids survive parsing: the packets pass the checks and the sessions are paired. */
  lemma SurvivingIdsPair(l: Link, ea: PrivateKey, eb: PrivateKey, e1: PrivateKey, e2: PrivateKey)
    requires l.flight == [] && l.idA !in l.b.handshakes
    requires Seen(l.idA) == l.idA == ReadRecipient(l.idA) && Seen(l.idB) == l.idB == ReadRecipient(l.idB)
    ensures
      var end := DeliverAll(Begin(l, l.idB, ea), Undisturbed(eb, e1, e2));
      end.flight == [] && Paired(end.a, l.idB, end.b, l.idA)
  {
    HonestHandshake(l.a, l.b, l.idA, l.idB, ea, eb, e1, e2, false);
    var (a1, m1) := Initiate(l.a, l.idB, ea);
    var (b1, m2) := Receive(l.b, l.idA, m1.value, eb, false);
    var (a2, m3) := Receive(a1, l.idB, m2.value, e1, false);
    var (b2, m4) := Receive(b1, l.idA, m3.value, e2, false);
    LettersDelivered(l, ea, eb, e1, e2, a1, m1.value, b1, m2.value, a2, m3.value, b2);
  }

  /** The second end's id does not survive: it never takes up the handshake. */
  lemma LostAtSecond(l: Link, known: PeerId, ea: PrivateKey, eb: PrivateKey, e1: PrivateKey, e2: PrivateKey)
    requires l.flight == []
    requires known == Seen(l.idB) ==> ReadRecipient(known) != [] && ReadRecipient(known) != l.idB
    ensures
      var end := DeliverAll(Begin(l, known, ea), Undisturbed(eb, e1, e2));
      end.flight == [] && known !in end.a.sessions
  {
    var l0 := Begin(l, known, ea);
    if l0.flight != [] {
      DeliverThree(l0, eb, e1, e2);
    }
  }

  /** The first end's id does not survive: it never sees the answer. */
  lemma LostAtFirst(l: Link, ea: PrivateKey, eb: PrivateKey, e1: PrivateKey, e2: PrivateKey)
    requires l.flight == [] && Seen(l.idB) == l.idB == ReadRecipient(l.idB)
    requires ReadRecipient(Seen(l.idA)) != [] && ReadRecipient(Seen(l.idA)) != l.idA
    ensures
      var end := DeliverAll(Begin(l, l.idB, ea), Undisturbed(eb, e1, e2));
      end.flight == [] && l.idB !in end.a.sessions
  {
    var l0 := Begin(l, l.idB, ea);
    InitiateWrites(l.a, l.idB, ea);
    DeliverThree(l0, eb, e1, e2);
  }

  /**
   An undisturbed handshake between two daemons pairs their sessions if and only if neither id ends in a zero byte,
   whether the first daemon knows the second by the id it announces or by the id it reads.
   */
  lemma PairsExactly(l: Link, known: PeerId, ea: PrivateKey, eb: PrivateKey, e1: PrivateKey, e2: PrivateKey)
    requires |l.idA| == PacketCodec.ID_SIZE == |l.idB| && l.flight == [] && Seen(l.idA) !in l.b.handshakes
    requires known == l.idB || known == Seen(l.idB)
    ensures
      var end := DeliverAll(Begin(l, known, ea), Undisturbed(eb, e1, e2));
      && end.flight == []
      && (Paired(end.a, known, end.b, Seen(l.idA)) <==> !Octets.EndsInZero(l.idA) && !Octets.EndsInZero(l.idB))
  {
    SeenAs(l.idA, l.idA);
    SeenAs(l.idB, l.idB);
    ReplyAddressed(l.idA);
    ReplyAddressed(l.idB);
    if Octets.EndsInZero(l.idB) {
      LostAtSecond(l, known, ea, eb, e1, e2);
    } else if Octets.EndsInZero(l.idA) {
      LostAtFirst(l, ea, eb, e1, e2);
    } else {
      SurvivingIdsPair(l, ea, eb, e1, e2);
    }
  }
}
