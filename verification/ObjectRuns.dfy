/** The protocol theorems on the objects themselves: handshakes, sessions and messages between two peers, updated in place. */
module ObjectRuns {
  import opened Outcomes
  import opened Symbolic
  import opened Noise
  import opened NoiseAgreement
  import opened NoiseState
  import opened Service
  import opened ServiceProofs
  import opened ServiceState

  /** Three messages between two new handshake objects: payloads arrive and the ends finish and hand out crossed ciphers. */
  method RunHandshake(i: HandshakeState, r: HandshakeState, si: PrivateKey, sr: PrivateKey, ei: PrivateKey, er: PrivateKey,
                      p1: Bytes, p2: Bytes, p3: Bytes)
      returns (g1: Reply<Bytes>, g2: Reply<Bytes>, g3: Reply<Bytes>, ci: Reply<(Cipher, Cipher)>, cr: Reply<(Cipher, Cipher)>)
    requires i != r && i.cipher != r.cipher
    requires i.View() == Start(Initiator, si) && r.View() == Start(Responder, sr)
    modifies i, i.cipher, r, r.cipher
    ensures g1 == Ok(p1) && g2 == Ok(p2) && g3 == Ok(p3)
    ensures ci.Ok? && cr.Ok? && ci.value.0 == cr.value.1 && ci.value.1 == cr.value.0 && ci.value.0.key != ci.value.1.key
    ensures Crossed(i.View(), r.View()) && i.View().symmetric.chainingKey == FinalKey(si, sr, ei, er)
  {
    FirstMessage(i.View(), r.View(), si, sr, ei, er, p1);
    var m1 := i.WriteMessage(ei, p1);
    g1 := r.ReadMessage(m1.value);
    SecondMessage(i.View(), r.View(), si, sr, ei, er, p2);
    var m2 := r.WriteMessage(er, p2);
    g2 := i.ReadMessage(m2.value);
    ThirdMessage(i.View(), r.View(), si, sr, ei, er, ei, p3);
    var m3 := i.WriteMessage(ei, p3);
    g3 := r.ReadMessage(m3.value);
    SplitCrosses(i.View(), r.View());
    ci := i.TransportCiphers();
    cr := r.TransportCiphers();
  }

  /** An undisturbed handshake between two services pairs their sessions. */
  method Establish(a: EncryptionService, b: EncryptionService, peerA: PeerId, peerB: PeerId,
                   ea: PrivateKey, eb: PrivateKey, e1: PrivateKey, e2: PrivateKey)
    requires a != b && a.Valid() && b.Valid() && peerA !in b.handshakes
    modifies a, b
    ensures a.Valid() && b.Valid() && Paired(a.View(), peerB, b.View(), peerA)
    ensures peerB !in a.handshakes && peerA !in b.handshakes
  {
    HonestHandshake(a.View(), b.View(), peerA, peerB, ea, eb, e1, e2, true);
    var m1 := a.InitiateHandshake(peerB, ea);
    var m2 := b.ProcessHandshakeMessage(peerA, m1.value, eb);
    var m3 := a.ProcessHandshakeMessage(peerB, m2.value.value, e1);
    var m4 := b.ProcessHandshakeMessage(peerA, m3.value.value, e2);
  }

  /** From any valid states of the two services, at most two attempts pair their sessions. */
  method Connect(a: EncryptionService, b: EncryptionService, peerA: PeerId, peerB: PeerId,
                 e0: PrivateKey, f0: PrivateKey, ea: PrivateKey, eb: PrivateKey, e1: PrivateKey, e2: PrivateKey)
    requires a != b && a.Valid() && b.Valid()
    modifies a, b
    ensures a.Valid() && b.Valid() && Paired(a.View(), peerB, b.View(), peerA)
  {
    if peerA in b.handshakes {
      InitiateWrites(a.View(), peerB, e0);
      FirstMessageRejected(b.handshakes[peerA], Public(e0));
      var m0 := a.InitiateHandshake(peerB, e0);
      var r0 := b.ProcessHandshakeMessage(peerA, m0.value, f0);
      b.ClearHandshakeState(peerA);
    }
    Establish(a, b, peerA, peerB, ea, eb, e1, e2);
  }

  /** What `a` encrypts next for its peer is what `b` decrypts next. */
  ghost predicate Aligned(a: Directory, peerB: PeerId, b: Directory, peerA: PeerId) {
    && peerB in a.sessions && peerA in b.sessions
    && a.sessions[peerB].send == b.sessions[peerA].receive && a.sessions[peerB].send.key.Some?
  }

  /** One message: it arrives, the direction stays aligned and the other one is left alone. */
  method PassMessage(a: EncryptionService, b: EncryptionService, peerA: PeerId, peerB: PeerId, text: Bytes)
      returns (r: Reply<Bytes>)
    requires a != b && a.Valid() && b.Valid() && Aligned(a.View(), peerB, b.View(), peerA)
    requires a.sessions[peerB].send.nonce < NONCE_LIMIT
    modifies a, b
    ensures a.Valid() && b.Valid() && Aligned(a.View(), peerB, b.View(), peerA) && r == Ok(text)
    ensures a.sessions[peerB].send.nonce == old(a.sessions[peerB].send.nonce) + 1
    ensures a.sessions[peerB].receive == old(a.sessions[peerB].receive)
    ensures b.sessions[peerA].send == old(b.sessions[peerA].send)
  {
    var c := a.sessions[peerB].send;
    OpenSeal(c.key.value, c.nonce, [], text);
    var sealed := a.EncryptForPeer(peerB, text);
    r := b.DecryptFromPeer(peerA, sealed.value);
  }

  /** Messages in both directions over established sessions all arrive, in order. */
  method Converse(a: EncryptionService, b: EncryptionService, peerA: PeerId, peerB: PeerId, texts: seq<(bool, Bytes)>)
      returns (got: seq<Reply<Bytes>>)
    requires a != b && a.Valid() && b.Valid() && Paired(a.View(), peerB, b.View(), peerA) && |texts| < NONCE_LIMIT
    modifies a, b
    ensures a.Valid() && b.Valid() && |got| == |texts| && forall i :: 0 <= i < |got| ==> got[i] == Ok(texts[i].1)
  {
    got := [];
    while |got| < |texts|
      invariant |got| <= |texts| && a.Valid() && b.Valid()
      invariant Aligned(a.View(), peerB, b.View(), peerA) && Aligned(b.View(), peerA, a.View(), peerB)
      invariant a.sessions[peerB].send.nonce <= |got| && b.sessions[peerA].send.nonce <= |got|
      invariant forall i :: 0 <= i < |got| ==> got[i] == Ok(texts[i].1)
      decreases |texts| - |got|
    {
      var (forth, text) := texts[|got|];
      var r;
      if forth {
        r := PassMessage(a, b, peerA, peerB, text);
      } else {
        r := PassMessage(b, a, peerB, peerA, text);
      }
      got := got + [r];
    }
  }
}
