/**
 The Noise XX handshake as values: cipher states, the symmetric state, and the two token interpreters
 (`bitchat/encryption.py`). Every operation returns the state it leaves behind together with its result, so the state
 at the point of an exception is part of the model.
 */
module Noise {
  import opened Outcomes
  import opened Symbolic

  datatype NoiseError =
    | HandshakeComplete
    | HandshakeIncomplete
    | MissingKeys
    | ShortMessage
    | CipherNotInitialized
    | NonceExhausted
    | InvalidTag
    | NoSession

  type Reply<+T> = Result<T, NoiseError>

  // ----- Cipher states -----

  /** The counter is written into eight bytes, so encoding it fails from here on. */
  const NONCE_LIMIT: nat := 0x1_0000_0000_0000_0000

  datatype Cipher = Cipher(key: Option<Bytes>, nonce: nat)

  const EMPTY_CIPHER := Cipher(None, 0)

  function Keyed(key: Bytes): Cipher {
    Cipher(Some(key), 0)
  }

  function Encrypt(c: Cipher, text: Bytes, ad: Bytes): (Cipher, Reply<Bytes>) {
    if c.key.None? then (c, Err(CipherNotInitialized))
    else if c.nonce >= NONCE_LIMIT then (c, Err(NonceExhausted))
    else (c.(nonce := c.nonce + 1), Ok(Seal(c.key.value, c.nonce, ad, text)))
  }

  /** The counter advances on a failed tag too. */
  function Decrypt(c: Cipher, data: Bytes, ad: Bytes): (Cipher, Reply<Bytes>) {
    if c.key.None? then (c, Err(CipherNotInitialized))
    else if c.nonce >= NONCE_LIMIT then (c, Err(NonceExhausted))
    else
      var text := Open(c.key.value, c.nonce, ad, data);
      (c.(nonce := c.nonce + 1), if text.Some? then Ok(text.value) else Err(InvalidTag))
  }

  // ----- Symmetric state -----

  datatype Symmetric = Symmetric(chainingKey: Bytes, hash: Bytes, cipher: Cipher)

  const PROTOCOL_NAME := "Noise_XX_25519_ChaChaPoly_SHA256"

  function Literal(text: string): Bytes {
    seq(|text|, i requires 0 <= i < |text| => Lit(text[i] as nat))
  }

  /** A protocol name of at most 32 bytes is zero-padded, a longer one is hashed. */
  function NameHash(name: Bytes): Bytes {
    if |name| <= KEY_LEN then name + seq(KEY_LEN - |name|, i => Lit(0)) else Hash(name)
  }

  function ProtocolHash(): Bytes {
    NameHash(Literal(PROTOCOL_NAME))
  }

  /** HKDF with two outputs: extract, then two chained HMACs. */
  function Hkdf(chainingKey: Bytes, material: Bytes): (Bytes, Bytes) {
    var temp := Mac(chainingKey, material);
    var first := Mac(temp, [Lit(1)]);
    (first, Mac(temp, first + [Lit(2)]))
  }

  function MixKey(s: Symmetric, material: Bytes): Symmetric {
    var (ck, k) := Hkdf(s.chainingKey, material);
    s.(chainingKey := ck, cipher := Keyed(k))
  }

  function MixHash(s: Symmetric, data: Bytes): Symmetric {
    s.(hash := Hash(s.hash + data))
  }

  function EncryptAndHash(s: Symmetric, text: Bytes): (Symmetric, Reply<Bytes>) {
    if s.cipher.key.None? then (MixHash(s, text), Ok(text))
    else
      var (c, r) := Encrypt(s.cipher, text, s.hash);
      (if r.Ok? then MixHash(s.(cipher := c), r.value) else s.(cipher := c), r)
  }

  function DecryptAndHash(s: Symmetric, data: Bytes): (Symmetric, Reply<Bytes>) {
    if s.cipher.key.None? then (MixHash(s, data), Ok(data))
    else
      var (c, r) := Decrypt(s.cipher, data, s.hash);
      (if r.Ok? then MixHash(s.(cipher := c), data) else s.(cipher := c), r)
  }

  // ----- Handshake state -----

  datatype Role = Initiator | Responder

  datatype Token = E | S | EE | ES | SE

  datatype Handshake = Handshake(
    role: Role,
    localStatic: PrivateKey,
    localEphemeral: Option<PrivateKey>,
    remoteStatic: Option<Bytes>,
    remoteEphemeral: Option<Bytes>,
    symmetric: Symmetric,
    pattern: nat)

  const XX: seq<seq<Token>> := [[E], [E, EE, S, ES], [S, SE]]

  function Start(role: Role, key: PrivateKey): Handshake {
    Handshake(role, key, None, None, None, Symmetric(ProtocolHash(), ProtocolHash(), EMPTY_CIPHER), 0)
  }

  predicate Complete(h: Handshake) {
    h.pattern >= |XX|
  }

  /** The Diffie-Hellman input of a DH token, or None when a key it needs is missing. Both interpreters use it. */
  function Secret(h: Handshake, t: Token): Option<Bytes>
    requires t != E && t != S
  {
    var ephemeralFirst := if h.role == Initiator then ES else SE;
    if t == EE then
      if h.localEphemeral.None? || h.remoteEphemeral.None? then None
      else Some(Exchange(h.localEphemeral.value, h.remoteEphemeral.value))
    else if t == ephemeralFirst then
      if h.localEphemeral.None? || h.remoteStatic.None? then None
      else Some(Exchange(h.localEphemeral.value, h.remoteStatic.value))
    else
      if h.remoteEphemeral.None? then None
      else Some(Exchange(h.localStatic, h.remoteEphemeral.value))
  }

  function MixSecret(h: Handshake, t: Token): (Handshake, Reply<Bytes>)
    requires t != E && t != S
  {
    var secret := Secret(h, t);
    if secret.None? then (h, Err(MissingKeys))
    else (h.(symmetric := MixKey(h.symmetric, secret.value)), Ok([]))
  }

  /** One token of `write_message`: the bytes it appends to the message. */
  function WriteToken(h: Handshake, t: Token, ephemeral: PrivateKey): (Handshake, Reply<Bytes>) {
    match t
    case E =>
      (h.(localEphemeral := Some(ephemeral), symmetric := MixHash(h.symmetric, Public(ephemeral))),
       Ok(Public(ephemeral)))
    case S =>
      var (s, r) := EncryptAndHash(h.symmetric, Public(h.localStatic));
      (h.(symmetric := s), r)
    case _ => MixSecret(h, t)
  }

  /** One token of `read_message`: the bytes of the buffer that are left. */
  function ReadToken(h: Handshake, t: Token, buffer: Bytes): (Handshake, Reply<Bytes>) {
    match t
    case E =>
      if |buffer| < KEY_LEN then (h, Err(ShortMessage))
      else
        (h.(remoteEphemeral := Some(buffer[..KEY_LEN]), symmetric := MixHash(h.symmetric, buffer[..KEY_LEN])),
         Ok(buffer[KEY_LEN..]))
    case S =>
      var n := if h.symmetric.cipher.key.Some? then KEY_LEN + TAG_LEN else KEY_LEN;
      if |buffer| < n then (h, Err(ShortMessage))
      else
        var (s, r) := DecryptAndHash(h.symmetric, buffer[..n]);
        if r.Err? then (h.(symmetric := s), r)
        else (h.(symmetric := s, remoteStatic := Some(r.value)), Ok(buffer[n..]))
    case _ =>
      var (h', r) := MixSecret(h, t);
      (h', if r.Ok? then Ok(buffer) else r)
  }

  /** A writer's result with more bytes in front of it. */
  function Prefixed(prefix: Bytes, r: (Handshake, Reply<Bytes>)): (Handshake, Reply<Bytes>) {
    (r.0, if r.1.Ok? then Ok(prefix + r.1.value) else r.1)
  }

  function WriteTokens(h: Handshake, ts: seq<Token>, ephemeral: PrivateKey): (Handshake, Reply<Bytes>)
    decreases |ts|
  {
    if ts == [] then (h, Ok([]))
    else
      var (h1, first) := WriteToken(h, ts[0], ephemeral);
      if first.Err? then (h1, first) else Prefixed(first.value, WriteTokens(h1, ts[1..], ephemeral))
  }

  function ReadTokens(h: Handshake, ts: seq<Token>, buffer: Bytes): (Handshake, Reply<Bytes>)
    decreases |ts|
  {
    if ts == [] then (h, Ok(buffer))
    else
      var (h1, rest) := ReadToken(h, ts[0], buffer);
      if rest.Err? then (h1, rest) else ReadTokens(h1, ts[1..], rest.value)
  }

  function WriteMessage(h: Handshake, ephemeral: PrivateKey, payload: Bytes): (Handshake, Reply<Bytes>) {
    if Complete(h) then (h, Err(HandshakeComplete))
    else
      var (h1, tokens) := WriteTokens(h, XX[h.pattern], ephemeral);
      if tokens.Err? then (h1, tokens) else FinishWrite(h1, tokens.value, payload)
  }

  /** After the tokens: seal the payload, then move to the next pattern. */
  function FinishWrite(h: Handshake, message: Bytes, payload: Bytes): (Handshake, Reply<Bytes>) {
    var (s, body) := EncryptAndHash(h.symmetric, payload);
    if body.Err? then (h.(symmetric := s), body)
    else (h.(symmetric := s, pattern := h.pattern + 1), Ok(message + body.value))
  }

  function ReadMessage(h: Handshake, message: Bytes): (Handshake, Reply<Bytes>) {
    if Complete(h) then (h, Err(HandshakeComplete))
    else
      var (h1, rest) := ReadTokens(h, XX[h.pattern], message);
      if rest.Err? then (h1, rest) else FinishRead(h1, rest.value)
  }

  function FinishRead(h: Handshake, rest: Bytes): (Handshake, Reply<Bytes>) {
    var (s, payload) := DecryptAndHash(h.symmetric, rest);
    if payload.Err? then (h.(symmetric := s), payload)
    else (h.(symmetric := s, pattern := h.pattern + 1), payload)
  }

  // ----- Transport ciphers -----

  datatype Session = Session(send: Cipher, receive: Cipher, remoteStatic: Bytes)

  /** The two ciphers of a completed handshake: the initiator sends under the first key, the responder under the second. */
  function Split(h: Handshake): (Cipher, Cipher) {
    var (k1, k2) := Hkdf(h.symmetric.chainingKey, []);
    if h.role == Initiator then (Keyed(k1), Keyed(k2)) else (Keyed(k2), Keyed(k1))
  }
}
