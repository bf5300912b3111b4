/**
 The three messages of the handshake written out byte for byte, without the interpreters: what each key, nonce and piece
 of associated data is, from the two static keys, the two ephemeral keys and the payloads alone.
 */
module XXWire {
  import opened Outcomes
  import opened Symbolic
  import opened Noise
  import opened NoiseAgreement
  import opened Transcript

  /** One exchange, by its secrets and payloads. */
  datatype Exchanged = Exchanged(
    si: PrivateKey, sr: PrivateKey, ei: PrivateKey, er: PrivateKey, p1: Bytes, p2: Bytes, p3: Bytes)
  {
    // The chaining keys and cipher keys after ee, es and se.

    function AfterEE(i: nat): Bytes {
      HkdfOutput(ProtocolHash(), Shared(ei, er), i)
    }

    function AfterES(i: nat): Bytes {
      HkdfOutput(AfterEE(1), Shared(ei, sr), i)
    }

    function AfterSE(i: nat): Bytes {
      HkdfOutput(AfterES(1), Shared(si, er), i)
    }

    // The messages and the hash after each.

    function First(): Bytes {
      Public(ei) + p1
    }

    function Hash1(): Bytes {
      Absorb(Absorb(ProtocolHash(), Public(ei)), p1)
    }

    function SealedStatic2(): Bytes {
      Seal(AfterEE(2), 0, Absorb(Hash1(), Public(er)), Public(sr))
    }

    function SealedPayload2(): Bytes {
      Seal(AfterES(2), 0, Absorb(Absorb(Hash1(), Public(er)), SealedStatic2()), p2)
    }

    function Second(): Bytes {
      Public(er) + SealedStatic2() + SealedPayload2()
    }

    function Hash2(): Bytes {
      Absorb(Absorb(Absorb(Hash1(), Public(er)), SealedStatic2()), SealedPayload2())
    }

    function SealedStatic3(): Bytes {
      Seal(AfterES(2), 1, Hash2(), Public(si))
    }

    function SealedPayload3(): Bytes {
      Seal(AfterSE(2), 0, Absorb(Hash2(), SealedStatic3()), p3)
    }

    function Third(): Bytes {
      SealedStatic3() + SealedPayload3()
    }

    function Hash3(): Bytes {
      Absorb(Absorb(Hash2(), SealedStatic3()), SealedPayload3())
    }
  }

  /** Both start from the protocol name itself, which is exactly as long as a hash. */
  lemma StartsFromName(role: Role, key: PrivateKey, i: nat)
    requires i < 32
    ensures
      var s, name := Start(role, key).symmetric, "Noise_XX_25519_ChaChaPoly_SHA256";
      && |name| == 32 == |s.hash| && s.chainingKey == s.hash && s.hash[i] == Lit(name[i] as nat)
      && s.cipher == Cipher(None, 0)
  {
  }

  lemma FirstWritten(h: Handshake, e: PrivateKey, p: Bytes)
    requires h.pattern == 0 && h.symmetric.cipher == EMPTY_CIPHER
    ensures
      var (h', m) := WriteMessage(h, e, p);
      && m == Ok(Public(e) + p) && h'.symmetric.cipher == EMPTY_CIPHER
      && h'.symmetric.hash == Absorb(Absorb(h.symmetric.hash, Public(e)), p)
  {
    assert XX[0][1..] == [];
    assert Public(e) + [] == Public(e);
  }

  lemma StaticWritten(h: Handshake, e: PrivateKey)
    requires h.symmetric.cipher.key.Some? && h.symmetric.cipher.nonce < NONCE_LIMIT
    ensures
      var c := h.symmetric.cipher;
      var sealed := Seal(c.key.value, c.nonce, h.symmetric.hash, Public(h.localStatic));
      var (h', m) := WriteToken(h, S, e);
      && m == Ok(sealed) && h' == h.(symmetric := h'.symmetric) && h'.symmetric.chainingKey == h.symmetric.chainingKey
      && h'.symmetric.hash == Absorb(h.symmetric.hash, sealed)
  {
  }

  /** The tokens e, ee, s, es of message two. */
  lemma SecondTokensWire(h: Handshake, e: PrivateKey)
    requires h.role == Responder && h.remoteEphemeral.Some?
    ensures
      var remote, hash := h.remoteEphemeral.value, Absorb(h.symmetric.hash, Public(e));
      var ck := HkdfOutput(h.symmetric.chainingKey, Exchange(e, remote), 1);
      var sealed := Seal(HkdfOutput(h.symmetric.chainingKey, Exchange(e, remote), 2), 0, hash, Public(h.localStatic));
      var (h', m) := WriteTokens(h, XX[1], e);
      && m == Ok(Public(e) + sealed) && h'.symmetric.hash == Absorb(hash, sealed)
      && h'.symmetric.cipher == Cipher(Some(HkdfOutput(ck, Exchange(h.localStatic, remote), 2)), 0)
      && h'.pattern == h.pattern
  {
    var remote := h.remoteEphemeral.value;
    var h1 := WriteToken(h, E, e).0;
    DhWritten(h1, EE, e, Exchange(e, remote));
    var h2 := WriteToken(h1, EE, e).0;
    StaticWritten(h2, e);
    var (h3, sealed) := WriteToken(h2, S, e);
    DhWritten(h3, ES, e, Exchange(h.localStatic, remote));
    var h4 := WriteToken(h3, ES, e).0;
    PairWritten(h2, S, ES, e, h3, sealed.value, h4);
    FourWritten(h, h1, h2, h4, e, sealed.value);
  }

  lemma SecondWire(h: Handshake, e: PrivateKey, p: Bytes)
    requires h.pattern == 1 && h.role == Responder && h.remoteEphemeral.Some?
    ensures
      var remote, hash := h.remoteEphemeral.value, Absorb(h.symmetric.hash, Public(e));
      var ck := HkdfOutput(h.symmetric.chainingKey, Exchange(e, remote), 1);
      var sealed := Seal(HkdfOutput(h.symmetric.chainingKey, Exchange(e, remote), 2), 0, hash, Public(h.localStatic));
      var key := HkdfOutput(ck, Exchange(h.localStatic, remote), 2);
      var body := Seal(key, 0, Absorb(hash, sealed), p);
      var (h', m) := WriteMessage(h, e, p);
      && m == Ok(Public(e) + sealed + body) && h'.symmetric.hash == Absorb(Absorb(hash, sealed), body)
      && h'.symmetric.cipher == Cipher(Some(key), 1)
  {
    SecondTokensWire(h, e);
  }

  lemma ThirdWire(h: Handshake, e: PrivateKey, p: Bytes)
    requires h.pattern == 2 && h.role == Initiator && h.remoteEphemeral.Some? && h.symmetric.cipher.key.Some?
    requires h.symmetric.cipher.nonce == 1
    ensures
      var hash := h.symmetric.hash;
      var sealed := Seal(h.symmetric.cipher.key.value, 1, hash, Public(h.localStatic));
      var key := HkdfOutput(h.symmetric.chainingKey, Exchange(h.localStatic, h.remoteEphemeral.value), 2);
      var body := Seal(key, 0, Absorb(hash, sealed), p);
      var (h', m) := WriteMessage(h, e, p);
      m == Ok(sealed + body) && h'.symmetric.hash == Absorb(Absorb(hash, sealed), body)
  {
    StaticWritten(h, e);
    var (h1, sealed) := WriteToken(h, S, e);
    DhWritten(h1, SE, e, Exchange(h.localStatic, h.remoteEphemeral.value));
    PairWritten(h, S, SE, e, h1, sealed.value, WriteToken(h1, SE, e).0);
  }

  /** Message two, from two ends in lock-step after message one. */
  lemma SecondStep(x: Exchanged, i: Handshake, r: Handshake)
    requires Phase(1, i, r, x.si, x.sr, x.ei, x.er) && r.symmetric.hash == x.Hash1()
    ensures
      var (r', m) := WriteMessage(r, x.er, x.p2);
      && m == Ok(x.Second())
      && var i' := ReadMessage(i, m.value).0;
      && Phase(2, i', r', x.si, x.sr, x.ei, x.er) && i'.symmetric.hash == x.Hash2()
      && i'.symmetric.cipher == Cipher(Some(x.AfterES(2)), 1)
  {
    SecondMessage(i, r, x.si, x.sr, x.ei, x.er, x.p2);
    SecondWire(r, x.er, x.p2);
    ExchangeCommutes(x.er, x.ei);
    ExchangeCommutes(x.sr, x.ei);
  }

  /** Message three, from two ends in lock-step after message two. */
  lemma ThirdStep(x: Exchanged, i: Handshake, r: Handshake)
    requires Phase(2, i, r, x.si, x.sr, x.ei, x.er) && i.symmetric.hash == x.Hash2()
    requires i.symmetric.cipher == Cipher(Some(x.AfterES(2)), 1)
    ensures
      var (i', m) := WriteMessage(i, x.ei, x.p3);
      && m == Ok(x.Third())
      && var r' := ReadMessage(r, m.value).0;
      && Phase(3, i', r', x.si, x.sr, x.ei, x.er) && i'.symmetric.hash == x.Hash3()
  {
    ThirdMessage(i, r, x.si, x.sr, x.ei, x.er, x.ei, x.p3);
    ThirdWire(i, x.ei, x.p3);
    ExchangeCommutes(x.si, x.er);
  }

  /**
   For all keys and payloads, the three messages that the two ends write to each other are exactly these, and both end
   with this hash.
   */
  lemma XXOnTheWire(x: Exchanged)
    ensures
      var i0, r0 := Start(Initiator, x.si), Start(Responder, x.sr);
      var (i1, m1) := WriteMessage(i0, x.ei, x.p1);
      m1 == Ok(x.First()) &&
      var r1 := ReadMessage(r0, m1.value).0;
      var (r2, m2) := WriteMessage(r1, x.er, x.p2);
      m2 == Ok(x.Second()) &&
      var i2 := ReadMessage(i1, m2.value).0;
      var (i3, m3) := WriteMessage(i2, x.ei, x.p3);
      m3 == Ok(x.Third()) &&
      var r3 := ReadMessage(r2, m3.value).0;
      i3.symmetric.hash == x.Hash3() == r3.symmetric.hash
  {
    var i0, r0 := Start(Initiator, x.si), Start(Responder, x.sr);
    FirstMessage(i0, r0, x.si, x.sr, x.ei, x.er, x.p1);
    FirstWritten(i0, x.ei, x.p1);
    var (i1, m1) := WriteMessage(i0, x.ei, x.p1);
    var r1 := ReadMessage(r0, m1.value).0;
    SecondStep(x, i1, r1);
    var (r2, m2) := WriteMessage(r1, x.er, x.p2);
    ThirdStep(x, ReadMessage(i1, m2.value).0, r2);
  }
}
