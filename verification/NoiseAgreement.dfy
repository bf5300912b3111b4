/** The writer and the reader of a handshake message stay in lock-step, token by token, and end with crossed ciphers. */
module NoiseAgreement {
  import opened Outcomes
  import opened Symbolic
  import opened Noise

  function PublicOf(k: Option<PrivateKey>): Option<Bytes> {
    if k.None? then None else Some(Public(k.value))
  }

  /**
   Two ends in lock-step: opposite roles, equal chaining key, hash, cipher key and nonce, each holding the other's
   ephemeral key exactly when the other has generated one, and never a wrong static key.
   */
  ghost predicate InStep(w: Handshake, r: Handshake) {
    && w.role != r.role
    && w.symmetric == r.symmetric
    && w.pattern == r.pattern
    && w.remoteEphemeral == PublicOf(r.localEphemeral)
    && r.remoteEphemeral == PublicOf(w.localEphemeral)
    && (w.remoteStatic.Some? ==> w.remoteStatic.value == Public(r.localStatic))
    && (r.remoteStatic.Some? ==> r.remoteStatic.value == Public(w.localStatic))
  }

  ghost predicate CanMix(h: Handshake, t: Token) {
    t != E && t != S ==> Secret(h, t).Some?
  }

  /** In lock-step, a DH token feeds the same secret to both ends. */
  lemma SecretsAgree(w: Handshake, r: Handshake, t: Token)
    requires InStep(w, r) && t != E && t != S && CanMix(w, t) && CanMix(r, t)
    ensures Secret(w, t) == Secret(r, t)
  {
    if w.localEphemeral.Some? && r.localEphemeral.Some? {
      ExchangeCommutes(w.localEphemeral.value, r.localEphemeral.value);
    }
    if w.localEphemeral.Some? {
      ExchangeCommutes(w.localEphemeral.value, r.localStatic);
    }
    if r.localEphemeral.Some? {
      ExchangeCommutes(r.localEphemeral.value, w.localStatic);
    }
  }

  lemma SealedTextAgrees(s: Symmetric, text: Bytes)
    requires EncryptAndHash(s, text).1.Ok?
    ensures DecryptAndHash(s, EncryptAndHash(s, text).1.value) == (EncryptAndHash(s, text).0, Ok(text))
    ensures |EncryptAndHash(s, text).1.value| == |text| + if s.cipher.key.Some? then TAG_LEN else 0
  {
    if s.cipher.key.Some? && s.cipher.nonce < NONCE_LIMIT {
      OpenSeal(s.cipher.key.value, s.cipher.nonce, s.hash, text);
    }
  }

  /** What writing and reading tokens `ts` leaves alone, and which keys it makes known. */
  ghost predicate Advanced(w: Handshake, r: Handshake, w': Handshake, r': Handshake, ts: seq<Token>) {
    && w'.role == w.role && w'.localStatic == w.localStatic && w'.remoteStatic == w.remoteStatic
    && r'.role == r.role && r'.localStatic == r.localStatic && r'.localEphemeral == r.localEphemeral
    && (w'.localEphemeral.Some? <==> w.localEphemeral.Some? || E in ts)
    && (r'.remoteStatic.Some? <==> r.remoteStatic.Some? || S in ts)
  }

  /** One token: whatever the writer appends, the reader consumes exactly that and both are in lock-step again. */
  lemma TokenAgreement(w: Handshake, r: Handshake, t: Token, ephemeral: PrivateKey, rest: Bytes)
    requires InStep(w, r) && CanMix(r, t)
    requires WriteToken(w, t, ephemeral).1.Ok?
    ensures
      var (w', out) := WriteToken(w, t, ephemeral);
      var (r', left) := ReadToken(r, t, out.value + rest);
      left == Ok(rest) && InStep(w', r') && Advanced(w, r, w', r', [t])
  {
    var (w', out) := WriteToken(w, t, ephemeral);
    var buffer := out.value + rest;
    assert buffer[|out.value|..] == rest && buffer[..|out.value|] == out.value;
    match t
    case E =>
    case S => SealedTextAgrees(w.symmetric, Public(w.localStatic));
    case _ =>
      assert CanMix(w, t);
      SecretsAgree(w, r, t);
  }

  /** Which keys an end holds, updated by a token it writes or reads. */
  datatype Keys = Keys(role: Role, le: bool, re: bool, rs: bool) {
    predicate Has(t: Token) {
      match t
      case E => true
      case S => true
      case EE => le && re
      case ES => if role == Initiator then le && rs else re
      case SE => if role == Initiator then re else le && rs
    }

    function After(t: Token, writing: bool): Keys {
      match t
      case E => if writing then this.(le := true) else this.(re := true)
      case S => if writing then this else this.(rs := true)
      case _ => this
    }

    /** Every DH token finds its keys by the time it is reached. */
    predicate Cover(ts: seq<Token>, writing: bool)
      decreases |ts|
    {
      ts == [] || (Has(ts[0]) && After(ts[0], writing).Cover(ts[1..], writing))
    }
  }

  function KeysOf(h: Handshake): Keys {
    Keys(h.role, h.localEphemeral.Some?, h.remoteEphemeral.Some?, h.remoteStatic.Some?)
  }

  /** An end that holds the keys of its tokens writes them without an exception. */
  lemma {:induction false} TokensWritten(w: Handshake, ts: seq<Token>, ephemeral: PrivateKey)
    requires KeysOf(w).Cover(ts, true)
    requires w.symmetric.cipher.nonce + |ts| <= NONCE_LIMIT
    ensures WriteTokens(w, ts, ephemeral).1.Ok?
    ensures WriteTokens(w, ts, ephemeral).0.symmetric.cipher.nonce <= w.symmetric.cipher.nonce + |ts|
    decreases |ts|
  {
    if ts != [] {
      var w1 := WriteToken(w, ts[0], ephemeral).0;
      assert KeysOf(w1) == KeysOf(w).After(ts[0], true);
      TokensWritten(w1, ts[1..], ephemeral);
    }
  }

  /** A whole token list: the reader consumes exactly what the writer wrote. */
  lemma {:induction false} TokensAgreement(w: Handshake, r: Handshake, ts: seq<Token>, ephemeral: PrivateKey, rest: Bytes)
    requires InStep(w, r) && KeysOf(r).Cover(ts, false)
    requires WriteTokens(w, ts, ephemeral).1.Ok?
    ensures
      var (w', out) := WriteTokens(w, ts, ephemeral);
      var (r', left) := ReadTokens(r, ts, out.value + rest);
      left == Ok(rest) && InStep(w', r') && Advanced(w, r, w', r', ts)
    decreases |ts|
  {
    if ts == [] {
      assert [] + rest == rest;
    } else {
      var (w1, first) := WriteToken(w, ts[0], ephemeral);
      var (w2, tail) := WriteTokens(w1, ts[1..], ephemeral);
      assert (first.value + tail.value) + rest == first.value + (tail.value + rest);
      TokenAgreement(w, r, ts[0], ephemeral, tail.value + rest);
      var r1 := ReadToken(r, ts[0], first.value + (tail.value + rest)).0;
      assert KeysOf(r1) == KeysOf(r).After(ts[0], false);
      TokensAgreement(w1, r1, ts[1..], ephemeral, rest);
    }
  }

  /** One message: the writer raises nothing, the reader recovers the payload, and both ends advance together. */
  lemma MessageAgreement(w: Handshake, r: Handshake, ephemeral: PrivateKey, payload: Bytes)
    requires InStep(w, r) && !Complete(w)
    requires KeysOf(w).Cover(XX[w.pattern], true) && KeysOf(r).Cover(XX[w.pattern], false)
    requires w.symmetric.cipher.nonce + |XX[w.pattern]| < NONCE_LIMIT
    ensures
      var (w', m) := WriteMessage(w, ephemeral, payload);
      && m.Ok?
      && var (r', got) := ReadMessage(r, m.value);
      && got == Ok(payload) && InStep(w', r') && Advanced(w, r, w', r', XX[w.pattern])
      && w'.pattern == w.pattern + 1
      && w'.symmetric.cipher.nonce <= w.symmetric.cipher.nonce + |XX[w.pattern]| + 1
  {
    var ts := XX[w.pattern];
    TokensWritten(w, ts, ephemeral);
    var (w1, tokens) := WriteTokens(w, ts, ephemeral);
    var (s, body) := EncryptAndHash(w1.symmetric, payload);
    TokensAgreement(w, r, ts, ephemeral, body.value);
    SealedTextAgrees(w1.symmetric, payload);
    assert w1.pattern == w.pattern by { PatternKept(w, ts, ephemeral); }
  }

  lemma {:induction false} PatternKept(w: Handshake, ts: seq<Token>, ephemeral: PrivateKey)
    ensures WriteTokens(w, ts, ephemeral).0.pattern == w.pattern
    decreases |ts|
  {
    if ts != [] {
      PatternKept(WriteToken(w, ts[0], ephemeral).0, ts[1..], ephemeral);
    }
  }

  // ----- The key schedule -----

  /** The blocks of HKDF, section 4.3 of the Noise Protocol Framework: each is keyed over the one before and its number. */
  function HkdfBlock(temp: Bytes, i: nat): Bytes {
    if i == 0 then [] else Mac(temp, HkdfBlock(temp, i - 1) + [Lit(i)])
  }

  /** The i-th output of HKDF. */
  function HkdfOutput(chainingKey: Bytes, material: Bytes, i: nat): Bytes {
    HkdfBlock(Mac(chainingKey, material), i)
  }

  lemma HkdfOutputs(chainingKey: Bytes, material: Bytes)
    ensures Hkdf(chainingKey, material) == (HkdfOutput(chainingKey, material, 1), HkdfOutput(chainingKey, material, 2))
  {
    var temp := Mac(chainingKey, material);
    assert [] + [Lit(1)] == [Lit(1)];
    assert HkdfBlock(temp, 1) == Mac(temp, HkdfBlock(temp, 0) + [Lit(1)]);
  }

  /** Mixing a secret: the first output is the new chaining key, the second the cipher key, at nonce zero. */
  lemma MixedKeys(s: Symmetric, material: Bytes)
    ensures
      var s' := MixKey(s, material);
      && s'.chainingKey == HkdfOutput(s.chainingKey, material, 1) && s'.hash == s.hash
      && s'.cipher == Cipher(Some(HkdfOutput(s.chainingKey, material, 2)), 0)
  {
    HkdfOutputs(s.chainingKey, material);
  }

  /** The two ends after all three messages; the initiator sends under the first of the two derived keys. */
  ghost predicate Crossed(i: Handshake, r: Handshake) {
    && Complete(i) && Complete(r)
    && i.symmetric == r.symmetric
    && i.remoteStatic == Some(Public(r.localStatic)) && r.remoteStatic == Some(Public(i.localStatic))
    && Split(i).0 == Split(r).1 && Split(i).1 == Split(r).0
    && Split(i).0.key.Some? && Split(i).1.key.Some? && Split(i).0.key != Split(i).1.key
    && Split(i).0.nonce == 0 == Split(i).1.nonce
    && Split(i).0.key == Some(HkdfOutput(i.symmetric.chainingKey, [], 1))
    && Split(i).1.key == Some(HkdfOutput(i.symmetric.chainingKey, [], 2))
  }

  lemma SplitCrosses(i: Handshake, r: Handshake)
    requires i.role == Initiator && r.role == Responder && i.symmetric.chainingKey == r.symmetric.chainingKey
    ensures Split(i).0 == Split(r).1 && Split(i).1 == Split(r).0 && Split(i).0.key != Split(i).1.key
    ensures Split(i).0 == Keyed(HkdfOutput(i.symmetric.chainingKey, [], 1))
    ensures Split(i).1 == Keyed(HkdfOutput(i.symmetric.chainingKey, [], 2))
  {
    HkdfOutputs(i.symmetric.chainingKey, []);
    var temp := Mac(i.symmetric.chainingKey, []);
    var k1 := Mac(temp, [Lit(1)]);
    assert |k1 + [Lit(2)]| != |[Lit(1)]|;
    assert k1[0] != Mac(temp, k1 + [Lit(2)])[0];
  }

  /** The chaining key of a completed handshake: the three shared secrets folded in, in order. */
  function FinalKey(si: PrivateKey, sr: PrivateKey, ei: PrivateKey, er: PrivateKey): Bytes {
    HkdfOutput(MiddleKey(sr, ei, er), Shared(si, er), 1)
  }

  /** The chaining key after message two. */
  function MiddleKey(sr: PrivateKey, ei: PrivateKey, er: PrivateKey): Bytes {
    HkdfOutput(HkdfOutput(ProtocolHash(), Shared(ei, er), 1), Shared(ei, sr), 1)
  }

  lemma WriteFirst(h: Handshake, t: Token, ts: seq<Token>, e: PrivateKey, h1: Handshake, m: Bytes)
    requires WriteToken(h, t, e) == (h1, Ok(m))
    ensures WriteTokens(h, [t] + ts, e) == Prefixed(m, WriteTokens(h1, ts, e))
  {
    assert ([t] + ts)[1..] == ts;
  }

  /** A DH token sends nothing and mixes its secret. */
  lemma DhWritten(h: Handshake, t: Token, e: PrivateKey, secret: Bytes)
    requires t != E && t != S && Secret(h, t) == Some(secret)
    ensures
      var (h', m) := WriteToken(h, t, e);
      && m == Ok([]) && h' == h.(symmetric := h'.symmetric) && h'.symmetric.hash == h.symmetric.hash
      && h'.symmetric.chainingKey == HkdfOutput(h.symmetric.chainingKey, secret, 1)
      && h'.symmetric.cipher == Cipher(Some(HkdfOutput(h.symmetric.chainingKey, secret, 2)), 0)
  {
    MixedKeys(h.symmetric, secret);
  }

  /** Token lists of two, the second a DH token. */
  lemma PairWritten(h: Handshake, t: Token, dh: Token, e: PrivateKey, h1: Handshake, m: Bytes, h2: Handshake)
    requires WriteToken(h, t, e) == (h1, Ok(m)) && WriteToken(h1, dh, e) == (h2, Ok([]))
    ensures WriteTokens(h, [t, dh], e) == (h2, Ok(m))
  {
    assert [t, dh] == [t] + [dh] && [dh] == [dh] + [];
    WriteFirst(h, t, [dh], e, h1, m);
    WriteFirst(h1, dh, [], e, h2, []);
    var none: Bytes := [];
    assert m + (none + none) == m;
  }

  lemma FourWritten(h: Handshake, h1: Handshake, h2: Handshake, h4: Handshake, e: PrivateKey, sealed: Bytes)
    requires WriteToken(h, E, e) == (h1, Ok(Public(e))) && WriteToken(h1, EE, e) == (h2, Ok([]))
    requires WriteTokens(h2, [S, ES], e) == (h4, Ok(sealed))
    ensures WriteTokens(h, XX[1], e) == (h4, Ok(Public(e) + sealed))
  {
    assert XX[1] == [E] + [EE, S, ES] && [EE, S, ES] == [EE] + [S, ES];
    WriteFirst(h, E, [EE, S, ES], e, h1, Public(e));
    WriteFirst(h1, EE, [S, ES], e, h2, []);
    assert [] + sealed == sealed;
  }

  /** The chaining key after a message folds in the secrets of its DH tokens, and nothing else. */
  lemma FirstKey(h: Handshake, e: PrivateKey, payload: Bytes)
    requires h.pattern == 0 && WriteMessage(h, e, payload).1.Ok?
    ensures WriteMessage(h, e, payload).0.symmetric.chainingKey == h.symmetric.chainingKey
    ensures WriteMessage(h, e, payload).0.localEphemeral == Some(e)
  {
    assert XX[0][1..] == [];
  }

  lemma SecondKey(h: Handshake, e: PrivateKey, payload: Bytes)
    requires h.pattern == 1 && h.role == Responder && h.remoteEphemeral.Some? && WriteMessage(h, e, payload).1.Ok?
    ensures
      var ck := HkdfOutput(h.symmetric.chainingKey, Exchange(e, h.remoteEphemeral.value), 1);
      var h' := WriteMessage(h, e, payload).0;
      && h'.symmetric.chainingKey == HkdfOutput(ck, Exchange(h.localStatic, h.remoteEphemeral.value), 1)
      && h'.localEphemeral == Some(e)
  {
    SecondTokens(h, e);
  }

  lemma SecondTokens(h: Handshake, e: PrivateKey)
    requires h.role == Responder && h.remoteEphemeral.Some? && WriteTokens(h, XX[1], e).1.Ok?
    ensures
      var ck := HkdfOutput(h.symmetric.chainingKey, Exchange(e, h.remoteEphemeral.value), 1);
      var h' := WriteTokens(h, XX[1], e).0;
      && h'.symmetric.chainingKey == HkdfOutput(ck, Exchange(h.localStatic, h.remoteEphemeral.value), 1)
      && h'.localEphemeral == Some(e)
  {
    var remote := h.remoteEphemeral.value;
    var h1 := WriteToken(h, E, e).0;
    DhWritten(h1, EE, e, Exchange(e, remote));
    var h2 := WriteToken(h1, EE, e).0;
    var (h3, sealed) := WriteToken(h2, S, e);
    DhWritten(h3, ES, e, Exchange(h.localStatic, remote));
    var h4 := WriteToken(h3, ES, e).0;
    PairWritten(h2, S, ES, e, h3, sealed.value, h4);
    FourWritten(h, h1, h2, h4, e, sealed.value);
  }

  lemma ThirdKey(h: Handshake, e: PrivateKey, payload: Bytes)
    requires h.pattern == 2 && h.role == Initiator && h.remoteEphemeral.Some? && WriteMessage(h, e, payload).1.Ok?
    ensures WriteMessage(h, e, payload).0.symmetric.chainingKey
         == HkdfOutput(h.symmetric.chainingKey, Exchange(h.localStatic, h.remoteEphemeral.value), 1)
    ensures WriteMessage(h, e, payload).0.localEphemeral == h.localEphemeral
  {
    assert XX[2][1..] == [SE] && [SE][1..] == [];
    MixedKeys(WriteToken(h, S, e).0.symmetric, Exchange(h.localStatic, h.remoteEphemeral.value));
  }

  /** The XX pattern never reaches a DH token before its keys, on either side. */
  lemma XXKeys()
    ensures Keys(Initiator, false, false, false).Cover(XX[0], true)
    ensures Keys(Responder, false, false, false).Cover(XX[0], false)
    ensures Keys(Responder, false, true, false).Cover(XX[1], true)
    ensures Keys(Initiator, true, false, false).Cover(XX[1], false)
    ensures Keys(Initiator, true, true, true).Cover(XX[2], true)
    ensures Keys(Responder, true, true, false).Cover(XX[2], false)
  {
    assert XX[0][1..] == [];
    assert XX[1][1..] == [EE, S, ES] && [EE, S, ES][1..] == [S, ES] && [S, ES][1..] == [ES] && [ES][1..] == [];
    assert XX[2][1..] == [SE] && [SE][1..] == [];
  }

  /** Initiator and responder in lock-step after `n` messages, holding exactly the keys those messages carried. */
  ghost predicate Phase(n: nat, i: Handshake, r: Handshake,
                        si: PrivateKey, sr: PrivateKey, ei: PrivateKey, er: PrivateKey) {
    && InStep(i, r) && i.pattern == n && i.symmetric.cipher.nonce <= 5 * n
    && i.role == Initiator && i.localStatic == si && r.localStatic == sr
    && i.localEphemeral == (if n >= 1 then Some(ei) else None)
    && r.localEphemeral == (if n >= 2 then Some(er) else None)
    && (i.remoteStatic.Some? <==> n >= 2) && (r.remoteStatic.Some? <==> n >= 3)
    && i.symmetric.chainingKey ==
       (if n <= 1 then ProtocolHash()
        else if n == 2 then MiddleKey(sr, ei, er)
        else FinalKey(si, sr, ei, er))
  }

  lemma FirstMessage(i: Handshake, r: Handshake, si: PrivateKey, sr: PrivateKey, ei: PrivateKey, er: PrivateKey, p: Bytes)
    requires Phase(0, i, r, si, sr, ei, er)
    ensures
      var (i', m) := WriteMessage(i, ei, p);
      m.Ok? && ReadMessage(r, m.value).1 == Ok(p) && Phase(1, i', ReadMessage(r, m.value).0, si, sr, ei, er)
  {
    XXKeys();
    MessageAgreement(i, r, ei, p);
    FirstKey(i, ei, p);
  }

  lemma SecondMessage(i: Handshake, r: Handshake, si: PrivateKey, sr: PrivateKey, ei: PrivateKey, er: PrivateKey, p: Bytes)
    requires Phase(1, i, r, si, sr, ei, er)
    ensures
      var (r', m) := WriteMessage(r, er, p);
      m.Ok? && ReadMessage(i, m.value).1 == Ok(p) && Phase(2, ReadMessage(i, m.value).0, r', si, sr, ei, er)
  {
    XXKeys();
    MessageAgreement(r, i, er, p);
    SecondKey(r, er, p);
    ExchangeCommutes(er, ei);
    ExchangeCommutes(sr, ei);
  }

  lemma ThirdMessage(i: Handshake, r: Handshake, si: PrivateKey, sr: PrivateKey, ei: PrivateKey, er: PrivateKey,
                     e: PrivateKey, p: Bytes)
    requires Phase(2, i, r, si, sr, ei, er)
    ensures
      var (i', m) := WriteMessage(i, e, p);
      m.Ok? && ReadMessage(r, m.value).1 == Ok(p) && Phase(3, i', ReadMessage(r, m.value).0, si, sr, ei, er)
  {
    XXKeys();
    MessageAgreement(i, r, e, p);
    ThirdKey(i, e, p);
    ExchangeCommutes(si, er);
  }

  /**
   The handshake as a whole: for all static and ephemeral keys and all payloads, three messages each read by the other
   side leave both ends complete, each knowing the other's static key, with crossed transport ciphers whose chaining key
   folds in ee, es and se.
   */
  lemma XXAgreement(si: PrivateKey, sr: PrivateKey, ei: PrivateKey, er: PrivateKey, p1: Bytes, p2: Bytes, p3: Bytes)
    ensures
      var i0, r0 := Start(Initiator, si), Start(Responder, sr);
      var (i1, m1) := WriteMessage(i0, ei, p1);
      m1.Ok? &&
      var (r1, g1) := ReadMessage(r0, m1.value);
      g1 == Ok(p1) && InStep(r1, i1) &&
      var (r2, m2) := WriteMessage(r1, er, p2);
      m2.Ok? &&
      var (i2, g2) := ReadMessage(i1, m2.value);
      g2 == Ok(p2) && InStep(i2, r2) &&
      var (i3, m3) := WriteMessage(i2, ei, p3);
      m3.Ok? &&
      var (r3, g3) := ReadMessage(r2, m3.value);
      && g3 == Ok(p3) && Crossed(i3, r3) && i3.localStatic == si && r3.localStatic == sr
      && i3.symmetric.chainingKey == FinalKey(si, sr, ei, er)
  {
    var i0, r0 := Start(Initiator, si), Start(Responder, sr);
    FirstMessage(i0, r0, si, sr, ei, er, p1);
    var (i1, m1) := WriteMessage(i0, ei, p1);
    var r1 := ReadMessage(r0, m1.value).0;
    SecondMessage(i1, r1, si, sr, ei, er, p2);
    var (r2, m2) := WriteMessage(r1, er, p2);
    var i2 := ReadMessage(i1, m2.value).0;
    ThirdMessage(i2, r2, si, sr, ei, er, ei, p3);
    var (i3, m3) := WriteMessage(i2, ei, p3);
    SplitCrosses(i3, ReadMessage(r2, m3.value).0);
  }

  // ----- What a transport key names -----

  lemma HkdfInjective(ck: Bytes, m: Bytes, ck': Bytes, m': Bytes)
    requires HkdfOutput(ck, m, 1) == HkdfOutput(ck', m', 1)
    ensures ck == ck' && m == m'
  {
    HkdfOutputs(ck, m);
    HkdfOutputs(ck', m');
    MacInjective(Mac(ck, m), [Lit(1)], Mac(ck', m'), [Lit(1)]);
    MacInjective(ck, m, ck', m');
  }

  lemma SharedNamesPair(a: PrivateKey, b: PrivateKey, c: PrivateKey, d: PrivateKey)
    requires Shared(a, b) == Shared(c, d)
    ensures (a == c && b == d) || (a == d && b == c)
  {
    assert Shared(a, b)[0] == if c <= d then SharedByte(c, d, 0) else SharedByte(d, c, 0);
  }

  /**
   A session key identifies its session: equal chaining keys come from the same static and ephemeral keys, in the same
   roles, as long as no ephemeral key doubles as a static key.
   */
  lemma FinalKeyNamesSession(si: PrivateKey, sr: PrivateKey, ei: PrivateKey, er: PrivateKey,
                             si': PrivateKey, sr': PrivateKey, ei': PrivateKey, er': PrivateKey)
    requires FinalKey(si, sr, ei, er) == FinalKey(si', sr', ei', er')
    requires {ei, er, ei', er'} !! {si, sr, si', sr'} && ei != er
    ensures si == si' && sr == sr' && ei == ei' && er == er'
  {
    var p := ProtocolHash();
    var a, a' := HkdfOutput(p, Shared(ei, er), 1), HkdfOutput(p, Shared(ei', er'), 1);
    var b, b' := HkdfOutput(a, Shared(ei, sr), 1), HkdfOutput(a', Shared(ei', sr'), 1);
    HkdfInjective(b, Shared(si, er), b', Shared(si', er'));
    HkdfInjective(a, Shared(ei, sr), a', Shared(ei', sr'));
    HkdfInjective(p, Shared(ei, er), p, Shared(ei', er'));
    SharedNamesPair(ei, er, ei', er');
    SharedNamesPair(ei, sr, ei', sr');
    SharedNamesPair(si, er, si', er');
  }
}
