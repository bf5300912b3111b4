/** One transport key, one direction: which arrivals decrypt. */
module CipherStream {
  import opened Outcomes
  import opened Symbolic
  import opened Noise

  /** Encrypt texts one after the other; the ciphertexts that did not raise. */
  function EncryptAll(c: Cipher, texts: seq<Bytes>): seq<Bytes>
    decreases |texts|
  {
    if texts == [] then []
    else
      var (c', r) := Encrypt(c, texts[0], []);
      (if r.Ok? then [r.value] else []) + EncryptAll(c', texts[1..])
  }

  /** Decrypt arrivals one after the other; None marks an attempt that raised. */
  function DecryptAll(c: Cipher, arrivals: seq<Bytes>): (outcomes: seq<Option<Bytes>>)
    ensures |outcomes| == |arrivals|
    decreases |arrivals|
  {
    if arrivals == [] then []
    else
      var (c', r) := Decrypt(c, arrivals[0], []);
      [if r.Ok? then Some(r.value) else None] + DecryptAll(c', arrivals[1..])
  }

  /** Ideal AEAD: nobody but the sender produced anything under the key. */
  ghost predicate NoForgery(key: Bytes, sent: seq<Bytes>, arrivals: seq<Bytes>) {
    forall a, n, t :: a in arrivals && a == Seal(key, n, [], t) ==> a in sent
  }

  lemma {:induction false} SentAt(c: Cipher, texts: seq<Bytes>)
    requires c.key.Some? && c.nonce <= NONCE_LIMIT
    ensures
      var sent := EncryptAll(c, texts);
      && |sent| <= |texts| && c.nonce + |sent| <= NONCE_LIMIT
      && (c.nonce + |texts| <= NONCE_LIMIT ==> |sent| == |texts|)
      && forall j :: 0 <= j < |sent| ==> sent[j] == Seal(c.key.value, c.nonce + j, [], texts[j])
    decreases |texts|
  {
    if texts != [] {
      var c' := Encrypt(c, texts[0], []).0;
      SentAt(c', texts[1..]);
      if c.nonce < NONCE_LIMIT {
        assert forall j :: 1 <= j < |texts| ==> texts[1..][j - 1] == texts[j];
      }
    }
  }

  /** The j-th attempt uses the j-th nonce, whatever came before it. */
  lemma {:induction false} AttemptAt(c: Cipher, arrivals: seq<Bytes>, j: nat)
    requires c.key.Some? && c.nonce <= NONCE_LIMIT && j < |arrivals|
    ensures DecryptAll(c, arrivals)[j] ==
            if c.nonce + j < NONCE_LIMIT then Open(c.key.value, c.nonce + j, [], arrivals[j]) else None
    decreases j
  {
    if j > 0 {
      AttemptAt(Decrypt(c, arrivals[0], []).0, arrivals[1..], j - 1);
    }
  }

  /**
   For any arrivals (losses, duplicates, reordering, foreign bytes), the j-th attempt succeeds exactly when the arrival is
   the j-th ciphertext encrypted under the key, and then yields the j-th plaintext.
   */
  lemma StreamCharacterisation(key: Bytes, texts: seq<Bytes>, arrivals: seq<Bytes>, j: nat)
    requires NoForgery(key, EncryptAll(Keyed(key), texts), arrivals) && j < |arrivals|
    ensures
      var sent := EncryptAll(Keyed(key), texts);
      |sent| <= |texts| && DecryptAll(Keyed(key), arrivals)[j]
        == if j < |sent| && arrivals[j] == sent[j] then Some(texts[j]) else None
  {
    var sent := EncryptAll(Keyed(key), texts);
    SentAt(Keyed(key), texts);
    AttemptAt(Keyed(key), arrivals, j);
    var text := Open(key, j, [], arrivals[j]);
    if text.Some? {
      OwnPosition(key, sent, texts, arrivals[j], j, text.value);
    }
    if j < |sent| && arrivals[j] == sent[j] {
      OpenSeal(key, j, [], texts[j]);
    }
  }

  /** A ciphertext of the stream sits at the position of its nonce. */
  lemma OwnPosition(key: Bytes, sent: seq<Bytes>, texts: seq<Bytes>, c: Bytes, n: nat, t: Bytes)
    requires |sent| <= |texts| && c in sent && c == Seal(key, n, [], t)
    requires forall j :: 0 <= j < |sent| ==> sent[j] == Seal(key, j, [], texts[j])
    ensures n < |sent| && sent[n] == c && texts[n] == t
  {
    var i :| 0 <= i < |sent| && sent[i] == c;
    SealInjective(key, i, [], texts[i], key, n, [], t);
  }

  /** No ciphertext is accepted twice. */
  lemma AcceptedAtMostOnce(key: Bytes, texts: seq<Bytes>, arrivals: seq<Bytes>, i: nat, j: nat)
    requires NoForgery(key, EncryptAll(Keyed(key), texts), arrivals) && i < j < |arrivals|
    requires DecryptAll(Keyed(key), arrivals)[i].Some? && DecryptAll(Keyed(key), arrivals)[j].Some?
    ensures arrivals[i] != arrivals[j]
  {
    StreamCharacterisation(key, texts, arrivals, i);
    StreamCharacterisation(key, texts, arrivals, j);
    SentAt(Keyed(key), texts);
    assert forall t, t' :: Seal(key, i, [], t)[0] != Seal(key, j, [], t')[0];
  }
}
