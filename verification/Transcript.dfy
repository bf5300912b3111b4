/** The handshake hash binds the transcript: ends that finish with the same hash have processed the same three messages. */
module Transcript {
  import opened Outcomes
  import opened Symbolic
  import opened Noise

  /** Messages two and three carry an encrypted static key; message one only an ephemeral key. */
  const SEALED_KEY_LEN: nat := KEY_LEN + TAG_LEN

  function Absorb(hash: Bytes, part: Bytes): Bytes {
    Hash(hash + part)
  }

  predicate LongEnough(pattern: nat, m: Bytes) {
    if pattern == 0 then |m| >= KEY_LEN else if pattern == 1 then |m| >= KEY_LEN + SEALED_KEY_LEN else |m| >= SEALED_KEY_LEN
  }

  /** The hash after a message of the given pattern: its parts are absorbed one by one, cut at fixed offsets. */
  function HashAfter(hash: Bytes, pattern: nat, m: Bytes): Bytes
    requires LongEnough(pattern, m)
  {
    if pattern == 0 then Absorb(Absorb(hash, m[..KEY_LEN]), m[KEY_LEN..])
    else if pattern == 1 then
      Absorb(Absorb(Absorb(hash, m[..KEY_LEN]), m[KEY_LEN..KEY_LEN + SEALED_KEY_LEN]), m[KEY_LEN + SEALED_KEY_LEN..])
    else Absorb(Absorb(hash, m[..SEALED_KEY_LEN]), m[SEALED_KEY_LEN..])
  }

  /** A cipher key is present exactly from the end of message two on. */
  ghost predicate Regular(h: Handshake) {
    |h.symmetric.hash| == KEY_LEN && (h.symmetric.cipher.key.Some? <==> h.pattern >= 2)
  }

  /** One message processed by an end, whether it wrote it or read it. */
  ghost predicate Processed(h: Handshake, m: Bytes, h': Handshake) {
    || (exists e, p :: WriteMessage(h, e, p) == (h', Ok(m)))
    || (exists p :: ReadMessage(h, m) == (h', Ok(p)))
  }

  lemma AbsorbInjective(h: Bytes, x: Bytes, g: Bytes, y: Bytes)
    requires |h| == |g| && Absorb(h, x) == Absorb(g, y)
    ensures h == g && x == y
  {
    assert Hash(h + x)[0] == HashByte(g + y, 0);
    assert h == (h + x)[..|h|] && g == (g + y)[..|h|] && x == (h + x)[|h|..] && y == (g + y)[|h|..];
  }

  lemma HashAfterInjective(h: Bytes, m: Bytes, g: Bytes, n: Bytes, pattern: nat)
    requires |h| == |g| && LongEnough(pattern, m) && LongEnough(pattern, n)
    requires HashAfter(h, pattern, m) == HashAfter(g, pattern, n)
    ensures h == g && m == n
  {
    var k, s := KEY_LEN, KEY_LEN + SEALED_KEY_LEN;
    if pattern == 0 {
      AbsorbInjective(Absorb(h, m[..k]), m[k..], Absorb(g, n[..k]), n[k..]);
      AbsorbInjective(h, m[..k], g, n[..k]);
      assert m == m[..k] + m[k..] && n == n[..k] + n[k..];
    } else if pattern == 1 {
      AbsorbInjective(Absorb(Absorb(h, m[..k]), m[k..s]), m[s..], Absorb(Absorb(g, n[..k]), n[k..s]), n[s..]);
      AbsorbInjective(Absorb(h, m[..k]), m[k..s], Absorb(g, n[..k]), n[k..s]);
      AbsorbInjective(h, m[..k], g, n[..k]);
      assert m == m[..k] + m[k..s] + m[s..] && n == n[..k] + n[k..s] + n[s..];
    } else {
      var l := SEALED_KEY_LEN;
      AbsorbInjective(Absorb(h, m[..l]), m[l..], Absorb(g, n[..l]), n[l..]);
      AbsorbInjective(h, m[..l], g, n[..l]);
      assert m == m[..l] + m[l..] && n == n[..l] + n[l..];
    }
  }

  // ----- Both interpreters compute that hash -----

  lemma FirstHash(h: Handshake, m: Bytes, h': Handshake)
    requires h.pattern == 0 && Regular(h) && Processed(h, m, h')
    ensures LongEnough(0, m) && h'.symmetric.hash == HashAfter(h.symmetric.hash, 0, m) && Regular(h') && h'.pattern == 1
  {
    assert XX[0][1..] == [];
    if e, p :| WriteMessage(h, e, p) == (h', Ok(m)) {
      assert m == Public(e) + [] + p;
      assert m[..KEY_LEN] == Public(e) && m[KEY_LEN..] == p;
    }
  }

  /** The tokens of message two up to the encrypted static key. */
  lemma SecondHash(h: Handshake, m: Bytes, h': Handshake)
    requires h.pattern == 1 && Regular(h) && Processed(h, m, h')
    ensures LongEnough(1, m) && h'.symmetric.hash == HashAfter(h.symmetric.hash, 1, m) && Regular(h') && h'.pattern == 2
  {
    if e, p :| WriteMessage(h, e, p) == (h', Ok(m)) {
      SecondWritten(h, e, p);
    } else {
      SecondRead(h, m);
    }
  }

  lemma SecondWritten(h: Handshake, e: PrivateKey, p: Bytes)
    requires h.pattern == 1 && Regular(h) && WriteMessage(h, e, p).1.Ok?
    ensures
      var (h', m) := WriteMessage(h, e, p);
      && LongEnough(1, m.value) && h'.symmetric.hash == HashAfter(h.symmetric.hash, 1, m.value)
      && Regular(h') && h'.pattern == 2
  {
    var key := SecondTokensWritten(h, e);
    var (h4, tokens) := WriteTokens(h, XX[1], e);
    var body := EncryptAndHash(h4.symmetric, p).1;
    var m := tokens.value + body.value;
    var k, s := KEY_LEN, KEY_LEN + SEALED_KEY_LEN;
    assert m[..k] == Public(e) && m[k..s] == key && m[s..] == body.value;
  }

  lemma SecondTokensWritten(h: Handshake, e: PrivateKey) returns (key: Bytes)
    requires Regular(h) && WriteTokens(h, XX[1], e).1.Ok?
    ensures
      var (h', tokens) := WriteTokens(h, XX[1], e);
      && WriteToken(WriteToken(WriteToken(h, E, e).0, EE, e).0, S, e).1 == Ok(key)
      && tokens.value == Public(e) + key && |key| == SEALED_KEY_LEN && h'.pattern == h.pattern
      && h'.symmetric.hash == Absorb(Absorb(h.symmetric.hash, Public(e)), key) && h'.symmetric.cipher.key.Some?
  {
    var h1 := WriteToken(h, E, e).0;
    var h2 := WriteToken(h1, EE, e).0;
    assert WriteTokens(h, XX[1], e) == Prefixed(Public(e), WriteTokens(h2, [S, ES], e)) by {
      assert XX[1][1..] == [EE, S, ES] && [EE, S, ES][1..] == [S, ES];
      var rest := WriteTokens(h2, [S, ES], e).1.value;
      assert [] + rest == rest;
    }
    var (h3, sealed) := WriteToken(h2, S, e);
    key := sealed.value;
    assert WriteTokens(h2, [S, ES], e) == Prefixed(key, WriteToken(h3, ES, e)) by {
      assert [S, ES][1..] == [ES] && [ES][1..] == [];
      var none: Bytes := [];
      assert none + none == none;
    }
    assert Public(e) + (key + []) == Public(e) + key;
  }

  lemma SecondRead(h: Handshake, m: Bytes)
    requires h.pattern == 1 && Regular(h) && ReadMessage(h, m).1.Ok?
    ensures
      var h' := ReadMessage(h, m).0;
      LongEnough(1, m) && h'.symmetric.hash == HashAfter(h.symmetric.hash, 1, m) && Regular(h') && h'.pattern == 2
  {
    SecondTokensRead(h, m);
  }

  lemma SecondTokensRead(h: Handshake, m: Bytes)
    requires Regular(h) && ReadTokens(h, XX[1], m).1.Ok?
    ensures
      var (h', rest) := ReadTokens(h, XX[1], m);
      var k, s := KEY_LEN, KEY_LEN + SEALED_KEY_LEN;
      && LongEnough(1, m) && rest.value == m[s..] && h'.pattern == h.pattern
      && h'.symmetric.hash == Absorb(Absorb(h.symmetric.hash, m[..k]), m[k..s]) && h'.symmetric.cipher.key.Some?
  {
    var (h1, b1) := ReadToken(h, E, m);
    var (h2, b2) := ReadToken(h1, EE, b1.value);
    assert ReadTokens(h, XX[1], m) == ReadTokens(h2, [S, ES], b2.value) by {
      assert XX[1][1..] == [EE, S, ES] && [EE, S, ES][1..] == [S, ES];
    }
    var (h3, b3) := ReadToken(h2, S, b2.value);
    assert ReadTokens(h2, [S, ES], b2.value) == ReadToken(h3, ES, b3.value) by {
      assert [S, ES][1..] == [ES] && [ES][1..] == [];
    }
    var k, s := KEY_LEN, KEY_LEN + SEALED_KEY_LEN;
    assert m[k..][..SEALED_KEY_LEN] == m[k..s] && m[k..][SEALED_KEY_LEN..] == m[s..];
  }

  lemma ThirdHash(h: Handshake, m: Bytes, h': Handshake)
    requires h.pattern == 2 && Regular(h) && Processed(h, m, h')
    ensures LongEnough(2, m) && h'.symmetric.hash == HashAfter(h.symmetric.hash, 2, m)
  {
    if e, p :| WriteMessage(h, e, p) == (h', Ok(m)) {
      ThirdWritten(h, e, p);
    } else {
      ThirdRead(h, m);
    }
  }

  lemma ThirdWritten(h: Handshake, e: PrivateKey, p: Bytes)
    requires h.pattern == 2 && Regular(h) && WriteMessage(h, e, p).1.Ok?
    ensures
      var (h', m) := WriteMessage(h, e, p);
      LongEnough(2, m.value) && h'.symmetric.hash == HashAfter(h.symmetric.hash, 2, m.value)
  {
    var (h1, key) := WriteToken(h, S, e);
    assert WriteTokens(h, XX[2], e) == Prefixed(key.value, WriteToken(h1, SE, e)) by {
      assert XX[2][1..] == [SE] && [SE][1..] == [];
    }
    var body := EncryptAndHash(WriteToken(h1, SE, e).0.symmetric, p).1;
    var m := key.value + [] + body.value;
    assert m[..SEALED_KEY_LEN] == key.value && m[SEALED_KEY_LEN..] == body.value;
  }

  lemma ThirdRead(h: Handshake, m: Bytes)
    requires h.pattern == 2 && Regular(h) && ReadMessage(h, m).1.Ok?
    ensures LongEnough(2, m) && ReadMessage(h, m).0.symmetric.hash == HashAfter(h.symmetric.hash, 2, m)
  {
    var (h1, b1) := ReadToken(h, S, m);
    assert ReadTokens(h, XX[2], m) == ReadToken(h1, SE, b1.value) by {
      assert XX[2][1..] == [SE] && [SE][1..] == [];
    }
  }

  /** A whole handshake of one end: three messages from its start. */
  ghost predicate Conversation(role: Role, own: PrivateKey, m1: Bytes, m2: Bytes, m3: Bytes, end: Handshake) {
    exists h1, h2 :: Processed(Start(role, own), m1, h1) && Processed(h1, m2, h2) && Processed(h2, m3, end)
  }

  lemma ConversationHash(role: Role, own: PrivateKey, m1: Bytes, m2: Bytes, m3: Bytes, end: Handshake)
    requires Conversation(role, own, m1, m2, m3, end)
    ensures LongEnough(0, m1) && LongEnough(1, m2) && LongEnough(2, m3) && |ProtocolHash()| == KEY_LEN
    ensures end.symmetric.hash == HashAfter(HashAfter(HashAfter(ProtocolHash(), 0, m1), 1, m2), 2, m3)
  {
    var h0 := Start(role, own);
    var h1, h2 :| Processed(h0, m1, h1) && Processed(h1, m2, h2) && Processed(h2, m3, end);
    FirstHash(h0, m1, h1);
    SecondHash(h1, m2, h2);
    ThirdHash(h2, m3, end);
  }

  /**
   Channel binding: two ends in any roles and with any keys, honest peers or not, that complete with the same handshake
   hash have processed the same three messages.
   */
  lemma TranscriptBinding(role: Role, s: PrivateKey, m1: Bytes, m2: Bytes, m3: Bytes, end: Handshake,
                          role': Role, s': PrivateKey, n1: Bytes, n2: Bytes, n3: Bytes, end': Handshake)
    requires Conversation(role, s, m1, m2, m3, end) && Conversation(role', s', n1, n2, n3, end')
    requires end.symmetric.hash == end'.symmetric.hash
    ensures m1 == n1 && m2 == n2 && m3 == n3
  {
    ConversationHash(role, s, m1, m2, m3, end);
    ConversationHash(role', s', n1, n2, n3, end');
    var a1, b1 := HashAfter(ProtocolHash(), 0, m1), HashAfter(ProtocolHash(), 0, n1);
    HashAfterInjective(HashAfter(a1, 1, m2), m3, HashAfter(b1, 1, n2), n3, 2);
    HashAfterInjective(a1, m2, b1, n2, 1);
    HashAfterInjective(ProtocolHash(), m1, ProtocolHash(), n1, 0);
  }

  // ----- Diverging ends reject each other -----

  /** A ciphertext sealed with one hash as associated data does not open with another. */
  lemma WrongHashRejected(s: Symmetric, text: Bytes, s': Symmetric)
    requires s.cipher.key.Some? && s'.cipher.key.Some? && s.hash != s'.hash && EncryptAndHash(s, text).1.Ok?
    ensures DecryptAndHash(s', EncryptAndHash(s, text).1.value).1.Err?
  {
    var c := EncryptAndHash(s, text).1.value;
    var r := Decrypt(s'.cipher, c, s'.hash).1;
    if r.Ok? {
      SealInjective(s.cipher.key.value, s.cipher.nonce, s.hash, text,
                    s'.cipher.key.value, s'.cipher.nonce, s'.hash, r.value);
    }
  }

  /**
   Once two ends have seen different transcripts, a message that one writes is rejected by the other, from the first
   encrypted static key on.
   */
  lemma DivergenceRejected(w: Handshake, r: Handshake, e: PrivateKey, p: Bytes)
    requires Regular(w) && Regular(r) && w.pattern == r.pattern && w.pattern in {1, 2}
    requires w.symmetric.hash != r.symmetric.hash && WriteMessage(w, e, p).1.Ok?
    ensures ReadMessage(r, WriteMessage(w, e, p).1.value).1.Err?
  {
    var m := WriteMessage(w, e, p).1.value;
    if w.pattern == 2 {
      ThirdDiverges(w, r, e, m);
    } else {
      SecondDiverges(w, r, e, m);
    }
  }

  lemma ThirdDiverges(w: Handshake, r: Handshake, e: PrivateKey, m: Bytes)
    requires w.symmetric.cipher.key.Some? && r.symmetric.cipher.key.Some? && w.symmetric.hash != r.symmetric.hash
    requires WriteTokens(w, XX[2], e).1.Ok? && WriteTokens(w, XX[2], e).1.value <= m
    ensures ReadTokens(r, XX[2], m).1.Err?
  {
    var key := WriteToken(w, S, e).1.value;
    assert m[..SEALED_KEY_LEN] == key by { assert key <= WriteTokens(w, XX[2], e).1.value; }
    WrongHashRejected(w.symmetric, Public(w.localStatic), r.symmetric);
    assert ReadToken(r, S, m).1.Err?;
  }

  lemma SecondDiverges(w: Handshake, r: Handshake, e: PrivateKey, m: Bytes)
    requires Regular(w) && Regular(r) && w.symmetric.hash != r.symmetric.hash
    requires WriteTokens(w, XX[1], e).1.Ok? && WriteTokens(w, XX[1], e).1.value <= m
    ensures ReadTokens(r, XX[1], m).1.Err?
  {
    var key := SecondTokensWritten(w, e);
    var rest := m[KEY_LEN..];
    assert m[..KEY_LEN] == Public(e) && rest[..SEALED_KEY_LEN] == key;
    var r1 := ReadToken(r, E, m).0;
    var (r2, left) := ReadToken(r1, EE, rest);
    assert ReadTokens(r, XX[1], m).1.Ok? ==> left == Ok(rest) && ReadToken(r2, S, rest).1.Ok? by {
      assert XX[1][1..] == [EE, S, ES] && [EE, S, ES][1..] == [S, ES];
    }
    if left.Ok? {
      StaticKeyRejected(w, WriteToken(WriteToken(w, E, e).0, EE, e).0, r, r2, e, rest);
    }
  }

  /** After the ephemeral key and ee, the sealed static key is bound to the hash of everything before it. */
  lemma StaticKeyRejected(w: Handshake, w2: Handshake, r: Handshake, r2: Handshake, e: PrivateKey, rest: Bytes)
    requires |w.symmetric.hash| == |r.symmetric.hash| && w.symmetric.hash != r.symmetric.hash
    requires w2.symmetric.hash == Absorb(w.symmetric.hash, Public(e)) && w2.symmetric.cipher.key.Some?
    requires r2.symmetric.hash == Absorb(r.symmetric.hash, Public(e)) && r2.symmetric.cipher.key.Some?
    requires WriteToken(w2, S, e).1.Ok? && |rest| >= SEALED_KEY_LEN && rest[..SEALED_KEY_LEN] == WriteToken(w2, S, e).1.value
    ensures ReadToken(r2, S, rest).1.Err?
  {
    if r2.symmetric.hash == w2.symmetric.hash {
      AbsorbInjective(w.symmetric.hash, Public(e), r.symmetric.hash, Public(e));
    }
    WrongHashRejected(w2.symmetric, Public(w2.localStatic), r2.symmetric);
  }
}
