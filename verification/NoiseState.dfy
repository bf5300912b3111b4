/** The objects of `bitchat/encryption.py`, updated in place and proved against the values of module `Noise`. */
module NoiseState {
  import opened Outcomes
  import opened Symbolic
  import opened Noise

  class CipherState {
    var key: Option<Bytes>
    var nonce: nat

    ghost function View(): Cipher
      reads this
    {
      Cipher(key, nonce)
    }

    constructor (c: Cipher)
      ensures View() == c
    {
      key, nonce := c.key, c.nonce;
    }

    method InitializeKey(k: Bytes)
      modifies this
      ensures View() == Keyed(k)
    {
      key, nonce := Some(k), 0;
    }

    method Encrypt(text: Bytes, ad: Bytes) returns (r: Reply<Bytes>)
      modifies this
      ensures (View(), r) == Noise.Encrypt(old(View()), text, ad)
    {
      if key.None? {
        return Err(CipherNotInitialized);
      }
      if nonce >= NONCE_LIMIT {
        return Err(NonceExhausted);
      }
      r := Ok(Seal(key.value, nonce, ad, text));
      nonce := nonce + 1;
    }

    method Decrypt(data: Bytes, ad: Bytes) returns (r: Reply<Bytes>)
      modifies this
      ensures (View(), r) == Noise.Decrypt(old(View()), data, ad)
    {
      if key.None? {
        return Err(CipherNotInitialized);
      }
      if nonce >= NONCE_LIMIT {
        return Err(NonceExhausted);
      }
      var text := Open(key.value, nonce, ad, data);
      nonce := nonce + 1;
      r := if text.Some? then Ok(text.value) else Err(InvalidTag);
    }
  }

  class HandshakeState {
    const role: Role
    const localStatic: PrivateKey
    var localEphemeral: Option<PrivateKey>
    var remoteStatic: Option<Bytes>
    var remoteEphemeral: Option<Bytes>
    var chainingKey: Bytes
    var hash: Bytes
    const cipher: CipherState
    var pattern: nat

    ghost function SymmetricView(): Symmetric
      reads this, cipher
    {
      Symmetric(chainingKey, hash, cipher.View())
    }

    ghost function View(): Handshake
      reads this, cipher
    {
      Handshake(role, localStatic, localEphemeral, remoteStatic, remoteEphemeral, SymmetricView(), pattern)
    }

    constructor (role: Role, key: PrivateKey)
      ensures fresh(cipher) && View() == Start(role, key)
    {
      this.role, localStatic := role, key;
      localEphemeral, remoteStatic, remoteEphemeral := None, None, None;
      chainingKey, hash, pattern := ProtocolHash(), ProtocolHash(), 0;
      cipher := new CipherState(EMPTY_CIPHER);
    }

    /** An object that continues from a stored handshake. */
    constructor Resume(h: Handshake)
      ensures fresh(cipher) && View() == h
    {
      role, localStatic := h.role, h.localStatic;
      localEphemeral, remoteStatic, remoteEphemeral := h.localEphemeral, h.remoteStatic, h.remoteEphemeral;
      chainingKey, hash, pattern := h.symmetric.chainingKey, h.symmetric.hash, h.pattern;
      cipher := new CipherState(h.symmetric.cipher);
    }

    method Snapshot() returns (h: Handshake)
      ensures h == View()
    {
      var s := Symmetric(chainingKey, hash, Cipher(cipher.key, cipher.nonce));
      h := Handshake(role, localStatic, localEphemeral, remoteStatic, remoteEphemeral, s, pattern);
    }

    method MixKey(material: Bytes)
      modifies this`chainingKey, cipher
      ensures SymmetricView() == Noise.MixKey(old(SymmetricView()), material)
    {
      var temp := Mac(chainingKey, material);
      var first := Mac(temp, [Lit(1)]);
      var second := Mac(temp, first + [Lit(2)]);
      chainingKey := first;
      cipher.InitializeKey(second);
    }

    method MixHash(data: Bytes)
      modifies this`hash
      ensures SymmetricView() == Noise.MixHash(old(SymmetricView()), data)
    {
      hash := Hash(hash + data);
    }

    method EncryptAndHash(text: Bytes) returns (r: Reply<Bytes>)
      modifies this`hash, cipher
      ensures (SymmetricView(), r) == Noise.EncryptAndHash(old(SymmetricView()), text)
    {
      if cipher.key.Some? {
        r := cipher.Encrypt(text, hash);
        if r.Ok? {
          MixHash(r.value);
        }
      } else {
        MixHash(text);
        r := Ok(text);
      }
    }

    method DecryptAndHash(data: Bytes) returns (r: Reply<Bytes>)
      modifies this`hash, cipher
      ensures (SymmetricView(), r) == Noise.DecryptAndHash(old(SymmetricView()), data)
    {
      if cipher.key.Some? {
        r := cipher.Decrypt(data, hash);
        if r.Ok? {
          MixHash(data);
        }
      } else {
        MixHash(data);
        r := Ok(data);
      }
    }

    method MixSecret(t: Token) returns (r: Reply<Bytes>)
      requires t != E && t != S
      modifies this`chainingKey, cipher
      ensures (View(), r) == Noise.MixSecret(old(View()), t)
    {
      var shared;
      if t == EE {
        if localEphemeral.None? || remoteEphemeral.None? {
          return Err(MissingKeys);
        }
        shared := Exchange(localEphemeral.value, remoteEphemeral.value);
      } else if (t == ES) == (role == Initiator) {
        if localEphemeral.None? || remoteStatic.None? {
          return Err(MissingKeys);
        }
        shared := Exchange(localEphemeral.value, remoteStatic.value);
      } else {
        if remoteEphemeral.None? {
          return Err(MissingKeys);
        }
        shared := Exchange(localStatic, remoteEphemeral.value);
      }
      MixKey(shared);
      r := Ok([]);
    }

    method WriteToken(t: Token, ephemeral: PrivateKey) returns (r: Reply<Bytes>)
      modifies this, cipher
      ensures (View(), r) == Noise.WriteToken(old(View()), t, ephemeral)
    {
      match t
      case E =>
        localEphemeral := Some(ephemeral);
        MixHash(Public(ephemeral));
        r := Ok(Public(ephemeral));
      case S =>
        r := EncryptAndHash(Public(localStatic));
      case _ =>
        r := MixSecret(t);
    }

    method ReadToken(t: Token, buffer: Bytes) returns (r: Reply<Bytes>)
      modifies this, cipher
      ensures (View(), r) == Noise.ReadToken(old(View()), t, buffer)
    {
      match t
      case E =>
        if |buffer| < KEY_LEN {
          return Err(ShortMessage);
        }
        remoteEphemeral := Some(buffer[..KEY_LEN]);
        MixHash(buffer[..KEY_LEN]);
        r := Ok(buffer[KEY_LEN..]);
      case S =>
        var n := if cipher.key.Some? then KEY_LEN + TAG_LEN else KEY_LEN;
        if |buffer| < n {
          return Err(ShortMessage);
        }
        r := DecryptAndHash(buffer[..n]);
        if r.Ok? {
          remoteStatic := Some(r.value);
          r := Ok(buffer[n..]);
        }
      case _ =>
        r := MixSecret(t);
        if r.Ok? {
          r := Ok(buffer);
        }
    }

    method WriteTokens(tokens: seq<Token>, ephemeral: PrivateKey) returns (r: Reply<Bytes>)
      modifies this, cipher
      ensures (View(), r) == Noise.WriteTokens(old(View()), tokens, ephemeral)
    {
      var k, message := 0, [];
      ghost var goal := Noise.WriteTokens(View(), tokens, ephemeral);
      assert tokens[0..] == tokens && goal == Prefixed(message, goal) by { PrefixedByNothing(goal); }
      while k < |tokens|
        invariant 0 <= k <= |tokens|
        invariant goal == Prefixed(message, Noise.WriteTokens(View(), tokens[k..], ephemeral))
      {
        assert tokens[k..][0] == tokens[k] && tokens[k..][1..] == tokens[k + 1..];
        r := WriteToken(tokens[k], ephemeral);
        if r.Err? {
          return;
        }
        PrefixedTwice(message, r.value, Noise.WriteTokens(View(), tokens[k + 1..], ephemeral));
        message := message + r.value;
        k := k + 1;
      }
      assert message + [] == message;
      r := Ok(message);
    }

    method ReadTokens(tokens: seq<Token>, message: Bytes) returns (r: Reply<Bytes>)
      modifies this, cipher
      ensures (View(), r) == Noise.ReadTokens(old(View()), tokens, message)
    {
      var k, buffer := 0, message;
      assert tokens[0..] == tokens;
      while k < |tokens|
        invariant 0 <= k <= |tokens|
        invariant Noise.ReadTokens(old(View()), tokens, message) == Noise.ReadTokens(View(), tokens[k..], buffer)
      {
        assert tokens[k..][0] == tokens[k] && tokens[k..][1..] == tokens[k + 1..];
        r := ReadToken(tokens[k], buffer);
        if r.Err? {
          return;
        }
        buffer := r.value;
        k := k + 1;
      }
      r := Ok(buffer);
    }

    method FinishWrite(message: Bytes, payload: Bytes) returns (r: Reply<Bytes>)
      modifies this, cipher
      ensures (View(), r) == Noise.FinishWrite(old(View()), message, payload)
    {
      r := EncryptAndHash(payload);
      if r.Ok? {
        r := Ok(message + r.value);
        pattern := pattern + 1;
      }
    }

    method FinishRead(rest: Bytes) returns (r: Reply<Bytes>)
      modifies this, cipher
      ensures (View(), r) == Noise.FinishRead(old(View()), rest)
    {
      r := DecryptAndHash(rest);
      if r.Ok? {
        pattern := pattern + 1;
      }
    }

    method WriteMessage(ephemeral: PrivateKey, payload: Bytes) returns (r: Reply<Bytes>)
      modifies this, cipher
      ensures (View(), r) == Noise.WriteMessage(old(View()), ephemeral, payload)
    {
      if pattern >= |XX| {
        return Err(HandshakeComplete);
      }
      r := WriteTokens(XX[pattern], ephemeral);
      if r.Ok? {
        r := FinishWrite(r.value, payload);
      }
    }

    method ReadMessage(message: Bytes) returns (r: Reply<Bytes>)
      modifies this, cipher
      ensures (View(), r) == Noise.ReadMessage(old(View()), message)
    {
      if pattern >= |XX| {
        return Err(HandshakeComplete);
      }
      r := ReadTokens(XX[pattern], message);
      if r.Ok? {
        r := FinishRead(r.value);
      }
    }

    method TransportCiphers() returns (r: Reply<(Cipher, Cipher)>)
      ensures r == if Complete(View()) then Ok(Split(View())) else Err(HandshakeIncomplete)
    {
      if pattern < |XX| {
        return Err(HandshakeIncomplete);
      }
      var temp := Mac(chainingKey, []);
      var k1 := Mac(temp, [Lit(1)]);
      var k2 := Mac(temp, k1 + [Lit(2)]);
      r := Ok(if role == Initiator then (Keyed(k1), Keyed(k2)) else (Keyed(k2), Keyed(k1)));
    }
  }

  lemma PrefixedByNothing(rest: (Handshake, Reply<Bytes>))
    ensures Prefixed([], rest) == rest
  {
    if rest.1.Ok? {
      assert [] + rest.1.value == rest.1.value;
    }
  }

  lemma PrefixedTwice(a: Bytes, b: Bytes, rest: (Handshake, Reply<Bytes>))
    ensures Prefixed(a, Prefixed(b, rest)) == Prefixed(a + b, rest)
  {
    if rest.1.Ok? {
      assert a + (b + rest.1.value) == a + b + rest.1.value;
    }
  }
}
