/**
 The stream theorems of one transport key, carried to the encryption service: what its operations do to the stored
 ciphers over any list of texts and any list of arrivals, failures included.
 */
module ServiceStream {
  import opened Outcomes
  import opened Symbolic
  import opened Noise
  import opened CipherStream
  import opened Service
  import opened ServiceProofs
  import opened ServiceState

  /** Decrypt arrivals from a peer one after the other. */
  function DecryptEach(d: Directory, peer: PeerId, arrivals: seq<Bytes>): (Directory, seq<Reply<Bytes>>)
    decreases |arrivals|
  {
    if arrivals == [] then (d, [])
    else
      var (d', r) := DecryptFrom(d, peer, arrivals[0]);
      var (end, rest) := DecryptEach(d', peer, arrivals[1..]);
      (end, [r] + rest)
  }

  function EncryptEach(d: Directory, peer: PeerId, texts: seq<Bytes>): (Directory, seq<Reply<Bytes>>)
    decreases |texts|
  {
    if texts == [] then (d, [])
    else
      var (d', r) := EncryptFor(d, peer, texts[0]);
      var (end, rest) := EncryptEach(d', peer, texts[1..]);
      (end, [r] + rest)
  }

  /** Everything but one cipher of one session is as it was. */
  ghost predicate OnlySession(d: Directory, d': Directory, peer: PeerId) {
    && d'.identity == d.identity && d'.handshakes == d.handshakes && d'.sessions.Keys == d.sessions.Keys
    && (forall other :: other in d.sessions && other != peer ==> d'.sessions[other] == d.sessions[other])
    && (peer in d.sessions ==> d'.sessions[peer].remoteStatic == d.sessions[peer].remoteStatic)
  }

  /** The service decrypts as the cipher stored for the peer does, and stores what becomes of it. */
  lemma {:induction false} DecryptsAsCipher(d: Directory, peer: PeerId, arrivals: seq<Bytes>)
    requires peer in d.sessions && d.sessions[peer].receive.key.Some? && d.sessions[peer].receive.nonce <= NONCE_LIMIT
    ensures
      var (d', rs) := DecryptEach(d, peer, arrivals);
      var c := d.sessions[peer].receive;
      && OnlySession(d, d', peer) && d'.sessions[peer].send == d.sessions[peer].send
      && d'.sessions[peer].receive == Cipher(c.key, Least(NONCE_LIMIT, c.nonce + |arrivals|))
      && |rs| == |arrivals|
      && forall j :: 0 <= j < |rs| ==> (if rs[j].Ok? then Some(rs[j].value) else None) == DecryptAll(c, arrivals)[j]
    decreases |arrivals|
  {
    if arrivals != [] {
      var (d1, r) := DecryptFrom(d, peer, arrivals[0]);
      DecryptsAsCipher(d1, peer, arrivals[1..]);
    }
  }

  /** The j-th result is right: it is the j-th text if the j-th arrival is its ciphertext, and an error otherwise. */
  ghost predicate Answered(key: Bytes, texts: seq<Bytes>, arrivals: seq<Bytes>, rs: seq<Reply<Bytes>>, j: nat)
    requires j < |rs| == |arrivals|
  {
    var sent := EncryptAll(Keyed(key), texts);
    && |sent| <= |texts| && (rs[j].Ok? <==> j < |sent| && arrivals[j] == sent[j])
    && (rs[j].Ok? ==> rs[j].value == texts[j])
  }

  lemma AnswerAt(key: Bytes, texts: seq<Bytes>, arrivals: seq<Bytes>, rs: seq<Reply<Bytes>>, j: nat)
    requires NoForgery(key, EncryptAll(Keyed(key), texts), arrivals) && j < |rs| == |arrivals|
    requires (if rs[j].Ok? then Some(rs[j].value) else None) == DecryptAll(Keyed(key), arrivals)[j]
    ensures Answered(key, texts, arrivals, rs, j)
  {
    StreamCharacterisation(key, texts, arrivals, j);
  }

  /**
   The stream theorem for the service: starting from a session at nonce zero, the j-th decryption succeeds exactly on the
   j-th ciphertext sealed under its key, whatever the others were; the stored nonce counts the attempts, failed ones
   included; nothing else changes.
   */
  lemma ServiceDecrypts(d: Directory, peer: PeerId, key: Bytes, texts: seq<Bytes>, arrivals: seq<Bytes>)
    requires peer in d.sessions && d.sessions[peer].receive == Keyed(key)
    requires NoForgery(key, EncryptAll(Keyed(key), texts), arrivals)
    ensures
      var (d', rs) := DecryptEach(d, peer, arrivals);
      && OnlySession(d, d', peer) && d'.sessions[peer].send == d.sessions[peer].send
      && d'.sessions[peer].receive == Cipher(Some(key), Least(NONCE_LIMIT, |arrivals|))
      && |rs| == |arrivals| && forall j :: 0 <= j < |rs| ==> Answered(key, texts, arrivals, rs, j)
  {
    DecryptsAsCipher(d, peer, arrivals);
    var rs := DecryptEach(d, peer, arrivals).1;
    forall j | 0 <= j < |rs|
      ensures Answered(key, texts, arrivals, rs, j)
    {
      AnswerAt(key, texts, arrivals, rs, j);
    }
  }

  /** The service seals the j-th text under the j-th nonce of the peer's send cipher, without associated data. */
  lemma {:induction false} ServiceEncrypts(d: Directory, peer: PeerId, texts: seq<Bytes>)
    requires peer in d.sessions && d.sessions[peer].send.key.Some?
    requires d.sessions[peer].send.nonce + |texts| <= NONCE_LIMIT
    ensures
      var (d', rs) := EncryptEach(d, peer, texts);
      var c := d.sessions[peer].send;
      && OnlySession(d, d', peer) && d'.sessions[peer].receive == d.sessions[peer].receive
      && d'.sessions[peer].send == Cipher(c.key, c.nonce + |texts|)
      && |rs| == |texts| && forall j :: 0 <= j < |rs| ==> rs[j] == Ok(Seal(c.key.value, c.nonce + j, [], texts[j]))
    decreases |texts|
  {
    if texts != [] {
      var (d1, r) := EncryptFor(d, peer, texts[0]);
      ServiceEncrypts(d1, peer, texts[1..]);
      var c, rs := d.sessions[peer].send, EncryptEach(d, peer, texts).1;
      forall j | 0 <= j < |rs|
        ensures rs[j] == Ok(Seal(c.key.value, c.nonce + j, [], texts[j]))
      {
        if j > 0 {
          assert rs[j] == EncryptEach(d1, peer, texts[1..]).1[j - 1] && texts[1..][j - 1] == texts[j];
        }
      }
    }
  }

  /** One failed attempt is enough: after it the message that was next does not decrypt, nor does any later one in turn. */
  lemma FailureShiftsService(d: Directory, peer: PeerId, key: Bytes, garbage: Bytes, texts: seq<Bytes>)
    requires peer in d.sessions && d.sessions[peer].receive == Keyed(key) && |texts| < NONCE_LIMIT
    requires forall n, t :: garbage != Seal(key, n, [], t)
    ensures
      var (d', rs) := DecryptEach(d, peer, [garbage] + EncryptAll(Keyed(key), texts));
      |rs| == 1 + |texts| && forall j :: 0 <= j < |rs| ==> rs[j].Err?
  {
    var sent := EncryptAll(Keyed(key), texts);
    var arrivals := [garbage] + sent;
    SentAt(Keyed(key), texts);
    ServiceDecrypts(d, peer, key, texts, arrivals);
    var rs := DecryptEach(d, peer, arrivals).1;
    forall j | 0 <= j < |rs|
      ensures rs[j].Err?
    {
      assert Answered(key, texts, arrivals, rs, j);
      if 0 < j < |sent| {
        assert arrivals[j] == sent[j - 1];
        assert Seal(key, j - 1, [], texts[j - 1])[0] != Seal(key, j, [], texts[j])[0];
      }
    }
  }

  /** The same of the object: a loop of `decrypt_from_peer` calls. */
  method DecryptStream(s: EncryptionService, peer: PeerId, ghost key: Bytes, ghost texts: seq<Bytes>, arrivals: seq<Bytes>)
      returns (rs: seq<Reply<Bytes>>)
    requires s.Valid() && peer in s.sessions && s.sessions[peer].receive == Keyed(key)
    requires NoForgery(key, EncryptAll(Keyed(key), texts), arrivals)
    modifies s
    ensures s.Valid() && OnlySession(old(s.View()), s.View(), peer)
    ensures s.sessions[peer].receive == Cipher(Some(key), Least(NONCE_LIMIT, |arrivals|))
    ensures s.sessions[peer].send == old(s.sessions[peer].send)
    ensures |rs| == |arrivals| && forall j :: 0 <= j < |rs| ==> Answered(key, texts, arrivals, rs, j)
  {
    ghost var goal := DecryptEach(s.View(), peer, arrivals);
    ServiceDecrypts(s.View(), peer, key, texts, arrivals);
    rs := [];
    var k := 0;
    assert arrivals[0..] == arrivals && [] + goal.1 == goal.1;
    while k < |arrivals|
      invariant 0 <= k <= |arrivals| && |rs| == k && s.Valid()
      invariant
        var (d, rest) := DecryptEach(s.View(), peer, arrivals[k..]);
        goal == (d, rs + rest)
    {
      assert arrivals[k..][0] == arrivals[k] && arrivals[k..][1..] == arrivals[k + 1..];
      var r := s.DecryptFromPeer(peer, arrivals[k]);
      ghost var rest := DecryptEach(s.View(), peer, arrivals[k + 1..]).1;
      assert rs + ([r] + rest) == (rs + [r]) + rest;
      rs := rs + [r];
      k := k + 1;
    }
    assert rs + [] == rs;
  }
}
