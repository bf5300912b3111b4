/** `EncryptionService` with its two dictionaries, updated in place and proved against module `Service`. */
module ServiceState {
  import opened Outcomes
  import opened Symbolic
  import opened Noise
  import opened NoiseState
  import opened Service
  import opened ServiceProofs

  /** Read a message and answer it unless the handshake is now complete. */
  method RespondTo(h: HandshakeState, message: Bytes, ephemeral: PrivateKey) returns (r: Reply<Option<Bytes>>)
    modifies h, h.cipher
    ensures (h.View(), r) == Respond(old(h.View()), message, ephemeral)
  {
    var payload := h.ReadMessage(message);
    if payload.Err? {
      return Err(payload.error);
    }
    if h.pattern >= |XX| {
      return Ok(None);
    }
    var response := h.WriteMessage(ephemeral, []);
    r := if response.Ok? then Ok(Some(response.value)) else Err(response.error);
  }

  /** The same on a stored handshake: resume it, respond, and store what became of it. */
  method RespondStored(h: Handshake, message: Bytes, ephemeral: PrivateKey) returns (h': Handshake, r: Reply<Option<Bytes>>)
    ensures (h', r) == Respond(h, message, ephemeral)
  {
    var state := new HandshakeState.Resume(h);
    r := RespondTo(state, message, ephemeral);
    h' := state.Snapshot();
  }

  lemma SettleOverwrites(d: Directory, peer: PeerId, before: Handshake, h: Handshake, ok: bool)
    ensures Settle(d.(handshakes := d.handshakes[peer := before]), peer, h, ok) == Settle(d, peer, h, ok)
  {
    assert d.handshakes[peer := before] - {peer} == d.handshakes - {peer};
    assert d.handshakes[peer := before][peer := h] == d.handshakes[peer := h];
  }

  /** Initiating starts from a directory without the peer. */
  lemma InitiateFromRemoved(d: Directory, peer: PeerId, ephemeral: PrivateKey)
    ensures
      var (h, r) := WriteMessage(Start(Initiator, d.identity), ephemeral, []);
      var d' := Remove(d, peer);
      Initiate(d, peer, ephemeral) == (d'.(handshakes := d'.handshakes[peer := h]), r)
  {
    var h := WriteMessage(Start(Initiator, d.identity), ephemeral, []).0;
    assert (d.handshakes - {peer})[peer := h] == d.handshakes[peer := h];
  }

  class EncryptionService {
    const identity: PrivateKey
    var sessions: map<PeerId, Session>
    var handshakes: map<PeerId, Handshake>

    ghost function View(): Directory
      reads this
    {
      Directory(identity, sessions, handshakes)
    }

    /** Stored handshakes wait for their next message, and a peer with an initiator handshake has no session. */
    ghost predicate Valid()
      reads this
    {
      Sound(View())
    }

    constructor (identity: PrivateKey)
      ensures Valid() && View() == Empty(identity)
    {
      this.identity := identity;
      sessions, handshakes := map[], map[];
    }

    method InitiateHandshake(peer: PeerId, ephemeral: PrivateKey) returns (r: Reply<Bytes>)
      requires Valid()
      modifies this
      ensures Valid() && (View(), r) == Initiate(old(View()), peer, ephemeral)
    {
      InitiateKeepsSound(View(), peer, ephemeral);
      if peer in handshakes {
        handshakes := handshakes - {peer};
      }
      if peer in sessions {
        sessions := sessions - {peer};
      }
      assert View() == Remove(old(View()), peer);
      var h;
      h, r := NewInitiator(ephemeral);
      handshakes := handshakes[peer := h];
      InitiateFromRemoved(old(View()), peer, ephemeral);
    }

    method NewInitiator(ephemeral: PrivateKey) returns (h: Handshake, r: Reply<Bytes>)
      ensures (h, r) == WriteMessage(Start(Initiator, identity), ephemeral, [])
    {
      var state := new HandshakeState(Initiator, identity);
      r := state.WriteMessage(ephemeral, []);
      h := state.Snapshot();
    }

    /** The source's branch for a handshake that is already complete is never taken. */
    method ProcessHandshakeMessage(peer: PeerId, message: Bytes, ephemeral: PrivateKey) returns (r: Reply<Option<Bytes>>)
      requires Valid()
      modifies this
      ensures Valid() && (View(), r) == Process(old(View()), peer, message, ephemeral)
      ensures r == Ok(None) ==> peer in sessions && peer !in handshakes
      ensures r.Err? && |message| >= KEY_LEN ==> peer !in handshakes && sessions == old(sessions)
      ensures forall other :: other != peer ==> Untouched(old(View()), View(), other)
    {
      ProcessOutcome(View(), peer, message, ephemeral);
      ProcessLeavesOthers(View(), peer, message, ephemeral);
      if |message| < KEY_LEN {
        return Err(ShortMessage);
      }
      if peer !in handshakes {
        handshakes := handshakes[peer := Start(Responder, identity)];
      }
      var h := handshakes[peer];
      assert handshakes == old(handshakes)[peer := h];
      assert h.pattern < |XX|;
      ghost var before := h;
      h, r := RespondStored(h, message, ephemeral);
      if r.Ok? {
        RespondOutcome(before, message, ephemeral);
      }
      SettleHandshake(peer, h, r.Ok?);
      SettleOverwrites(old(View()), peer, before, h, r.Ok?);
    }

    /** Drop, promote or keep the peer's handshake, now `h`; the entry it replaces need not be sound. */
    method SettleHandshake(peer: PeerId, h: Handshake, ok: bool)
      requires Sound(WithoutHandshake(View(), peer))
      requires ok ==> (Complete(h) && h.remoteStatic.Some?) || (Waiting(h) && h.role == Responder)
      modifies this
      ensures Valid() && View() == Settle(old(View()), peer, h, ok)
    {
      SettleKeepsSound(View(), peer, h, ok);
      if !ok {
        handshakes := handshakes - {peer};
      } else if h.pattern >= |XX| && h.remoteStatic.Some? {
        sessions := sessions[peer := SessionOf(h)];
        handshakes := handshakes - {peer};
      } else {
        handshakes := handshakes[peer := h];
      }
    }

    /** Seals under the peer's next nonce, which then advances; nothing else changes. */
    method EncryptForPeer(peer: PeerId, text: Bytes) returns (r: Reply<Bytes>)
      requires Valid()
      modifies this`sessions
      ensures Valid() && (View(), r) == EncryptFor(old(View()), peer, text)
      ensures peer !in old(sessions) ==> r == Err(NoSession) && sessions == old(sessions)
      ensures
        peer in old(sessions) && old(sessions[peer].send.key.Some? && sessions[peer].send.nonce < NONCE_LIMIT) ==>
          var c := old(sessions[peer].send);
          && r == Ok(Seal(c.key.value, c.nonce, [], text))
          && sessions == old(sessions)[peer := old(sessions[peer]).(send := Cipher(c.key, c.nonce + 1))]
    {
      if peer !in sessions {
        return Err(NoSession);
      }
      var cipher := new CipherState(sessions[peer].send);
      r := cipher.Encrypt(text, []);
      sessions := sessions[peer := sessions[peer].(send := Cipher(cipher.key, cipher.nonce))];
    }

    /** The peer's receive nonce advances whether or not the attempt succeeds; nothing else changes. */
    method DecryptFromPeer(peer: PeerId, data: Bytes) returns (r: Reply<Bytes>)
      requires Valid()
      modifies this`sessions
      ensures Valid() && (View(), r) == DecryptFrom(old(View()), peer, data)
      ensures peer !in old(sessions) ==> r == Err(NoSession) && sessions == old(sessions)
      ensures
        peer in old(sessions) && old(sessions[peer].receive.key.Some? && sessions[peer].receive.nonce < NONCE_LIMIT) ==>
          var c := old(sessions[peer].receive);
          && (r.Ok? <==> exists text :: data == Seal(c.key.value, c.nonce, [], text))
          && (r.Ok? ==> data == Seal(c.key.value, c.nonce, [], r.value))
          && sessions == old(sessions)[peer := old(sessions[peer]).(receive := Cipher(c.key, c.nonce + 1))]
    {
      if peer !in sessions {
        return Err(NoSession);
      }
      var cipher := new CipherState(sessions[peer].receive);
      r := cipher.Decrypt(data, []);
      sessions := sessions[peer := sessions[peer].(receive := Cipher(cipher.key, cipher.nonce))];
    }

    /** Both entries of the peer are gone, and nothing else. */
    method RemoveSession(peer: PeerId)
      requires Valid()
      modifies this
      ensures Valid() && View() == Remove(old(View()), peer)
      ensures peer !in sessions && peer !in handshakes
      ensures forall other :: other != peer ==> Untouched(old(View()), View(), other)
    {
      sessions := sessions - {peer};
      handshakes := handshakes - {peer};
    }

    /** The handshake of the peer is gone, and nothing else. */
    method ClearHandshakeState(peer: PeerId)
      requires Valid()
      modifies this`handshakes
      ensures Valid() && View() == WithoutHandshake(old(View()), peer)
      ensures peer !in handshakes && forall other :: other != peer ==> Untouched(old(View()), View(), other)
    {
      handshakes := handshakes - {peer};
    }

    /** `cleanup_old_sessions`: exactly the sessions that the clock calls old are gone; handshakes stay. */
    method CleanupOldSessions(isOld: PeerId -> bool)
      requires Valid()
      modifies this`sessions
      ensures Valid() && View() == Expire(old(View()), set p | p in old(sessions) && isOld(p))
      ensures forall p :: p in sessions <==> p in old(sessions) && !isOld(p)
      ensures forall p :: p in sessions ==> sessions[p] == old(sessions)[p]
    {
      var expired := set p | p in sessions && isOld(p);
      sessions := sessions - expired;
    }
  }
}
