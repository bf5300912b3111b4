/** What every run of the encryption service keeps, and what an exchange of its messages achieves. */
module ServiceProofs {
  import opened Outcomes
  import opened Symbolic
  import opened Noise
  import opened NoiseAgreement
  import opened Service

  // ----- What tokens and messages do to the fields the service looks at -----

  lemma {:induction false} TokensRead(h: Handshake, ts: seq<Token>, buffer: Bytes)
    ensures
      var (h', r) := ReadTokens(h, ts, buffer);
      && h'.role == h.role && h'.pattern == h.pattern && h'.localEphemeral == h.localEphemeral
      && (r.Ok? && (S in ts || h.remoteStatic.Some?) ==> h'.remoteStatic.Some?)
    decreases |ts|
  {
    if ts != [] {
      var (h1, r) := ReadToken(h, ts[0], buffer);
      if r.Ok? {
        TokensRead(h1, ts[1..], r.value);
      }
    }
  }

  lemma {:induction false} TokensWrite(h: Handshake, ts: seq<Token>, ephemeral: PrivateKey)
    ensures
      var (h', r) := WriteTokens(h, ts, ephemeral);
      && h'.role == h.role && h'.pattern == h.pattern && h'.remoteStatic == h.remoteStatic
      && (r.Ok? && (EE in ts || h.symmetric.cipher.key.Some?) ==> h'.symmetric.cipher.key.Some?)
      && (r.Ok? && (E in ts || h.localEphemeral.Some?) ==> h'.localEphemeral.Some?)
    decreases |ts|
  {
    if ts != [] {
      TokensWrite(WriteToken(h, ts[0], ephemeral).0, ts[1..], ephemeral);
    }
  }

  lemma MessageRead(h: Handshake, message: Bytes)
    requires !Complete(h) && ReadMessage(h, message).1.Ok?
    ensures
      var h' := ReadMessage(h, message).0;
      h'.role == h.role && h'.pattern == h.pattern + 1 && (h.pattern >= 1 ==> h'.remoteStatic.Some?)
  {
    TokensRead(h, XX[h.pattern], message);
  }

  lemma MessageWritten(h: Handshake, ephemeral: PrivateKey, payload: Bytes)
    requires !Complete(h) && WriteMessage(h, ephemeral, payload).1.Ok?
    ensures
      var h' := WriteMessage(h, ephemeral, payload).0;
      && h'.role == h.role && h'.pattern == h.pattern + 1 && h'.remoteStatic == h.remoteStatic
      && (h.pattern == 0 ==> h'.localEphemeral.Some?)
      && (h.pattern == 1 ==> h'.symmetric.cipher.key.Some?)
  {
    TokensWrite(h, XX[h.pattern], ephemeral);
  }

  // ----- The invariant of every reachable directory -----

  /** A stored handshake waits either as initiator for message two or as responder for message three. */
  ghost predicate Waiting(h: Handshake) {
    || (h.role == Initiator && h.pattern == 1 && h.localEphemeral.Some?)
    || (h.role == Responder && h.pattern == 2 && h.symmetric.cipher.key.Some?)
  }

  ghost predicate Sound(d: Directory) {
    && (forall p :: p in d.handshakes ==> Waiting(d.handshakes[p]))
    && (forall p :: p in d.handshakes && d.handshakes[p].role == Initiator ==> p !in d.sessions)
  }

  lemma InitiateWrites(d: Directory, peer: PeerId, ephemeral: PrivateKey)
    ensures Initiate(d, peer, ephemeral).1 == Ok(Public(ephemeral))
    ensures Waiting(Initiate(d, peer, ephemeral).0.handshakes[peer])
    ensures Initiate(d, peer, ephemeral).0.handshakes[peer].role == Initiator
  {
    var h := Start(Initiator, d.identity);
    assert XX[0][1..] == [];
    assert Public(ephemeral) + [] + [] == Public(ephemeral);
  }

  /** A successful exchange moves a fresh responder to pattern two and completes a waiting handshake. */
  lemma RespondOutcome(h: Handshake, message: Bytes, ephemeral: PrivateKey)
    requires (h.role == Responder && h.pattern == 0) || Waiting(h)
    requires Respond(h, message, ephemeral).1.Ok?
    ensures
      var (h', response) := Respond(h, message, ephemeral);
      && h'.role == h.role
      && (if h.pattern == 0 then Waiting(h') && !Complete(h') else Complete(h') && h'.remoteStatic.Some?)
      && (response.value.Some? <==> h.pattern != 2)
  {
    MessageRead(h, message);
    var h1 := ReadMessage(h, message).0;
    if !Complete(h1) {
      MessageWritten(h1, ephemeral, []);
    }
  }

  /**
   What the caller of `process_handshake_message` can conclude in a sound directory: after an exception the peer has no
   handshake and its session is as before; no response means that the session is established.
   */
  lemma ProcessOutcome(d: Directory, peer: PeerId, message: Bytes, ephemeral: PrivateKey)
    requires Sound(d)
    ensures !Complete(Current(d, peer)) && Sound(Process(d, peer, message, ephemeral).0)
    ensures
      var (d', r) := Process(d, peer, message, ephemeral);
      && d'.identity == d.identity
      && (|message| < KEY_LEN ==> d' == d && r.Err?)
      && (|message| >= KEY_LEN && r.Err? ==> peer !in d'.handshakes && d'.sessions == d.sessions)
      && (r == Ok(None) ==> peer in d'.sessions && peer !in d'.handshakes)
  {
    if |message| >= KEY_LEN && Respond(Current(d, peer), message, ephemeral).1.Ok? {
      RespondOutcome(Current(d, peer), message, ephemeral);
    }
  }

  /** Both entries of a peer are the same in two directories. */
  ghost predicate Untouched(d: Directory, d': Directory, peer: PeerId) {
    && (peer in d'.handshakes <==> peer in d.handshakes) && (peer in d'.sessions <==> peer in d.sessions)
    && (peer in d.handshakes ==> d'.handshakes[peer] == d.handshakes[peer])
    && (peer in d.sessions ==> d'.sessions[peer] == d.sessions[peer])
  }

  lemma ProcessLeavesOthers(d: Directory, peer: PeerId, message: Bytes, ephemeral: PrivateKey)
    ensures forall other :: other != peer ==> Untouched(d, Process(d, peer, message, ephemeral).0, other)
  {
  }

  /**
   A handshake packet that fails: the session and the other peers are left alone, nothing is answered, and the handshake is
   gone, except that the KEY_EXCHANGE handler keeps it when the message was too short to be looked at.
   */
  lemma ReceiveFailure(d: Directory, peer: PeerId, message: Bytes, ephemeral: PrivateKey, keyExchange: bool)
    requires Process(d, peer, message, ephemeral).1.Err?
    ensures
      var (d', r) := Receive(d, peer, message, ephemeral, keyExchange);
      && r.None? && d'.sessions == d.sessions && d'.identity == d.identity
      && (peer in d'.handshakes <==> keyExchange && |message| < KEY_LEN && peer in d.handshakes)
      && forall other :: other != peer ==> Untouched(d, d', other)
  {
  }

  /** A handshake packet that succeeds is answered with what the service answers. */
  lemma ReceiveSuccess(d: Directory, peer: PeerId, message: Bytes, ephemeral: PrivateKey, keyExchange: bool)
    requires Process(d, peer, message, ephemeral).1.Ok?
    ensures
      var (d', r) := Receive(d, peer, message, ephemeral, keyExchange);
      (d', Ok(r)) == Process(d, peer, message, ephemeral)
  {
  }

  lemma SettleKeepsSound(d: Directory, peer: PeerId, h: Handshake, ok: bool)
    requires Sound(WithoutHandshake(d, peer))
    requires ok ==> (Complete(h) && h.remoteStatic.Some?) || (Waiting(h) && h.role == Responder)
    ensures Sound(Settle(d, peer, h, ok))
  {
    var rest := WithoutHandshake(d, peer);
    assert forall p :: p in d.handshakes && p != peer ==> p in rest.handshakes;
  }

  lemma InitiateKeepsSound(d: Directory, peer: PeerId, ephemeral: PrivateKey)
    requires Sound(d)
    ensures Sound(Initiate(d, peer, ephemeral).0)
  {
    InitiateWrites(d, peer, ephemeral);
  }

  lemma ApplyKeepsSound(d: Directory, op: Op)
    requires Sound(d)
    ensures Sound(Apply(d, op))
  {
    match op
    case OpInitiate(p, e) => InitiateKeepsSound(d, p, e);
    case OpReceive(p, m, e, _) =>
      if |m| >= KEY_LEN && Respond(Current(d, p), m, e).1.Ok? {
        RespondOutcome(Current(d, p), m, e);
      }
    case _ =>
  }

  /**
   In every reachable directory each stored handshake is an initiator at pattern one or a responder at pattern two, so
   the "already complete" branch is never taken, and a peer with an initiator handshake has no session.
   */
  lemma {:induction false} ReachableSound(identity: PrivateKey, ops: seq<Op>)
    ensures Sound(Run(Empty(identity), ops))
    ensures forall p :: !Complete(Current(Run(Empty(identity), ops), p))
    decreases |ops|
  {
    if ops != [] {
      ReachableSound(identity, ops[..|ops| - 1]);
      ApplyKeepsSound(Run(Empty(identity), ops[..|ops| - 1]), ops[|ops| - 1]);
    }
  }

  // ----- Honest, crossed and stale exchanges -----

  /** Two sessions with crossed ciphers, both counters at zero, each naming the other's identity. */
  ghost predicate Paired(a: Directory, peerB: PeerId, b: Directory, peerA: PeerId) {
    && peerB in a.sessions && peerA in b.sessions
    && var x, y := a.sessions[peerB], b.sessions[peerA];
    && x.send == y.receive && x.receive == y.send && x.send.key != x.receive.key
    && x.send.key.Some? && x.receive.key.Some? && x.send.nonce == 0 == x.receive.nonce
    && x.remoteStatic == Public(b.identity) && y.remoteStatic == Public(a.identity)
  }

  /** Messages the service would reject as too short are also rejected by the interpreter. */
  lemma ReadLength(h: Handshake, message: Bytes)
    requires !Complete(h) && ReadMessage(h, message).1.Ok?
    ensures |message| >= KEY_LEN
  {
    assert ReadToken(h, XX[h.pattern][0], message).1.Ok?;
  }

  /** A peer without an entry answers message one and stores a responder in lock-step with the initiator `i`. */
  lemma ResponderAnswers(b: Directory, peer: PeerId, i: Handshake, m: Bytes, e: PrivateKey, k: bool,
                         si: PrivateKey, ei: PrivateKey)
    requires peer !in b.handshakes && ReadMessage(Start(Responder, b.identity), m).1.Ok?
    requires Phase(1, i, ReadMessage(Start(Responder, b.identity), m).0, si, b.identity, ei, e)
    ensures
      var (b', r) := Receive(b, peer, m, e, k);
      && r.Some? && peer in b'.handshakes && b'.identity == b.identity && ReadMessage(i, r.value).1.Ok?
      && Phase(2, ReadMessage(i, r.value).0, b'.handshakes[peer], si, b.identity, ei, e)
  {
    ReadLength(Start(Responder, b.identity), m);
    SecondMessage(i, ReadMessage(Start(Responder, b.identity), m).0, si, b.identity, ei, e, []);
  }

  /** The initiator reads message two, answers with message three and has its session. */
  lemma InitiatorFinishes(a: Directory, peer: PeerId, r: Handshake, m: Bytes, e: PrivateKey, k: bool,
                          sr: PrivateKey, ei: PrivateKey, er: PrivateKey)
    requires peer in a.handshakes && !Complete(a.handshakes[peer])
    requires ReadMessage(a.handshakes[peer], m).1.Ok?
    requires Phase(2, ReadMessage(a.handshakes[peer], m).0, r, a.identity, sr, ei, er)
    ensures
      var (a', out) := Receive(a, peer, m, e, k);
      var i := WriteMessage(ReadMessage(a.handshakes[peer], m).0, e, []).0;
      && out.Some? && ReadMessage(r, out.value).1.Ok? && peer !in a'.handshakes && a'.identity == a.identity
      && Phase(3, i, ReadMessage(r, out.value).0, a.identity, sr, ei, er)
      && peer in a'.sessions && a'.sessions[peer] == SessionOf(i)
  {
    ReadLength(a.handshakes[peer], m);
    ThirdMessage(ReadMessage(a.handshakes[peer], m).0, r, a.identity, sr, ei, er, e, []);
  }

  lemma ResponderFinishes(b: Directory, peer: PeerId, m: Bytes, e: PrivateKey, k: bool)
    requires peer in b.handshakes && b.handshakes[peer].pattern == 2 && ReadMessage(b.handshakes[peer], m).1.Ok?
    ensures
      var (b', out) := Receive(b, peer, m, e, k);
      var r := ReadMessage(b.handshakes[peer], m).0;
      && out.None? && peer !in b'.handshakes && b'.identity == b.identity
      && r.remoteStatic.Some? && peer in b'.sessions && b'.sessions[peer] == SessionOf(r)
  {
    ReadLength(b.handshakes[peer], m);
    MessageRead(b.handshakes[peer], m);
  }

  /**
   The three messages of an undisturbed handshake, each delivered to the other side, establish paired sessions under the
   keys derived from the three shared secrets.
   */
  lemma HonestHandshake(a: Directory, b: Directory, peerA: PeerId, peerB: PeerId,
                        ea: PrivateKey, eb: PrivateKey, e1: PrivateKey, e2: PrivateKey, k: bool)
    requires peerA !in b.handshakes
    ensures
      var (a1, m1) := Initiate(a, peerB, ea);
      m1.Ok? &&
      var (b1, m2) := Receive(b, peerA, m1.value, eb, k);
      m2.Some? &&
      var (a2, m3) := Receive(a1, peerB, m2.value, e1, k);
      m3.Some? &&
      var (b2, m4) := Receive(b1, peerA, m3.value, e2, k);
      && m4.None? && Paired(a2, peerB, b2, peerA) && peerB !in a2.handshakes && peerA !in b2.handshakes
      && var final := FinalKey(a.identity, b.identity, ea, eb);
      && a2.sessions[peerB].send == Keyed(HkdfOutput(final, [], 1))
      && a2.sessions[peerB].receive == Keyed(HkdfOutput(final, [], 2))
  {
    FirstMessage(Start(Initiator, a.identity), Start(Responder, b.identity), a.identity, b.identity, ea, eb, []);
    var (a1, m1) := Initiate(a, peerB, ea);
    var i1 := a1.handshakes[peerB];
    ResponderAnswers(b, peerA, i1, m1.value, eb, k, a.identity, ea);
    var (b1, m2) := Receive(b, peerA, m1.value, eb, k);
    InitiatorFinishes(a1, peerB, b1.handshakes[peerA], m2.value, e1, k, b.identity, ea, eb);
    var (a2, m3) := Receive(a1, peerB, m2.value, e1, k);
    ResponderFinishes(b1, peerA, m3.value, e2, k);
    SplitCrosses(WriteMessage(ReadMessage(i1, m2.value).0, e1, []).0, ReadMessage(b1.handshakes[peerA], m3.value).0);
  }

  /** A waiting handshake rejects a first message: it is too short to carry the static key. */
  lemma FirstMessageRejected(h: Handshake, message: Bytes)
    requires Waiting(h) && |message| == KEY_LEN
    ensures ReadMessage(h, message).1.Err?
  {
    if h.pattern == 1 {
      assert XX[1][1..] == [EE, S, ES] && [EE, S, ES][1..] == [S, ES];
      var h1 := ReadToken(h, E, message).0;
      var h2 := ReadToken(h1, EE, message[KEY_LEN..]).0;
      assert ReadTokens(h, XX[1], message) == ReadTokens(h2, [S, ES], []);
    }
  }

  /** Crossed initiations destroy each other: both ends are left with neither a session nor a handshake. */
  lemma CrossedInitiations(a: Directory, b: Directory, peerA: PeerId, peerB: PeerId,
                           ea: PrivateKey, eb: PrivateKey, e1: PrivateKey, e2: PrivateKey, k: bool)
    ensures
      var (a1, ma) := Initiate(a, peerB, ea);
      var (b1, mb) := Initiate(b, peerA, eb);
      ma.Ok? && mb.Ok? &&
      var (a2, ra) := Receive(a1, peerB, mb.value, e1, k);
      var (b2, rb) := Receive(b1, peerA, ma.value, e2, k);
      && ra.None? && rb.None?
      && peerB !in a2.sessions && peerB !in a2.handshakes && peerA !in b2.sessions && peerA !in b2.handshakes
  {
    InitiateWrites(a, peerB, ea);
    InitiateWrites(b, peerA, eb);
    FirstMessageRejected(Initiate(a, peerB, ea).0.handshakes[peerB], Public(eb));
    FirstMessageRejected(Initiate(b, peerA, eb).0.handshakes[peerA], Public(ea));
  }

  /**
   Recovery: whatever state the initiator is in and whatever reachable state the other end is in, an initiation that runs
   into a leftover handshake clears it, so the next initiation meets the precondition of an honest handshake.
   */
  lemma SecondAttemptSucceeds(a: Directory, b: Directory, peerA: PeerId, peerB: PeerId,
                              e0: PrivateKey, f0: PrivateKey, ea: PrivateKey, eb: PrivateKey,
                              e1: PrivateKey, e2: PrivateKey, k: bool)
    requires Sound(b) && peerA in b.handshakes
    ensures
      var (a0, m0) := Initiate(a, peerB, e0);
      m0.Ok? &&
      var (b0, r0) := Receive(b, peerA, m0.value, f0, k);
      r0.None? &&
      var (a1, m1) := Initiate(a0, peerB, ea);
      m1.Ok? &&
      var (b1, m2) := Receive(b0, peerA, m1.value, eb, k);
      m2.Some? &&
      var (a2, m3) := Receive(a1, peerB, m2.value, e1, k);
      m3.Some? &&
      var (b2, m4) := Receive(b1, peerA, m3.value, e2, k);
      m4.None? && Paired(a2, peerB, b2, peerA)
  {
    InitiateWrites(a, peerB, e0);
    FirstMessageRejected(b.handshakes[peerA], Public(e0));
    var a0 := Initiate(a, peerB, e0).0;
    var b0 := Receive(b, peerA, Public(e0), f0, k).0;
    HonestHandshake(a0, b0, peerA, peerB, ea, eb, e1, e2, k);
  }
}
