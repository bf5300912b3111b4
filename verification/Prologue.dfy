/**
 Interoperation at the prologue. Section 5.3 of the Noise Protocol Framework mixes a prologue, possibly empty, into the
 initial hash; the code starts from the protocol name alone. Whether two ends understand each other depends on their
 initial hashes only, and shows at the second message.
 */
module Prologue {
  import opened Outcomes
  import opened Symbolic
  import opened Noise
  import opened NoiseAgreement
  import opened Transcript

  function FromHash(role: Role, key: PrivateKey, hash: Bytes): Handshake {
    var h := Start(role, key);
    h.(symmetric := h.symmetric.(hash := hash))
  }

  /** The start that section 5.3 asks for. */
  function StandardStart(role: Role, key: PrivateKey, prologue: Bytes): Handshake {
    var h := Start(role, key);
    h.(symmetric := MixHash(h.symmetric, prologue))
  }

  /** Message one is written and read, message two is written, and the initiator accepts it or not. */
  ghost predicate SecondMessageRead(i0: Handshake, r0: Handshake, ei: PrivateKey, er: PrivateKey, p1: Bytes, p2: Bytes,
                                    accepted: bool) {
    var (i1, m1) := WriteMessage(i0, ei, p1);
    && m1.Ok?
    && var (r1, g1) := ReadMessage(r0, m1.value);
    && g1 == Ok(p1)
    && var (r2, m2) := WriteMessage(r1, er, p2);
    && m2.Ok?
    && (if accepted then ReadMessage(i1, m2.value).1 == Ok(p2) else ReadMessage(i1, m2.value).1.Err?)
  }

  /** Message one is not encrypted: any responder reads it. */
  lemma FirstMessageRead(i0: Handshake, r0: Handshake, ei: PrivateKey, p1: Bytes)
    requires i0.pattern == 0 == r0.pattern && i0.symmetric.cipher == EMPTY_CIPHER == r0.symmetric.cipher
    ensures
      var (i1, m1) := WriteMessage(i0, ei, p1);
      && m1.Ok?
      && var (r1, g1) := ReadMessage(r0, m1.value);
      && g1 == Ok(p1) && r1.remoteEphemeral == Some(Public(ei))
      && r1 == r0.(remoteEphemeral := r1.remoteEphemeral, symmetric := r1.symmetric, pattern := 1)
      && r1.symmetric.cipher == EMPTY_CIPHER
  {
    assert XX[0][1..] == [];
    var m := Public(ei) + [] + p1;
    assert m[..KEY_LEN] == Public(ei) && m[KEY_LEN..] == p1;
  }

  lemma SecondMessageWritten(r1: Handshake, er: PrivateKey, p2: Bytes)
    requires r1.pattern == 1 && r1.role == Responder && r1.remoteEphemeral.Some?
    requires r1.localEphemeral.None? && r1.remoteStatic.None?
    requires r1.symmetric.cipher == EMPTY_CIPHER
    ensures WriteMessage(r1, er, p2).1.Ok?
  {
    XXKeys();
    TokensWritten(r1, XX[1], er);
  }

  lemma HashesDiverge(i0: Handshake, r0: Handshake, ei: PrivateKey, p1: Bytes)
    requires i0.pattern == 0 == r0.pattern && Regular(i0) && Regular(r0) && i0.symmetric.hash != r0.symmetric.hash
    requires WriteMessage(i0, ei, p1).1.Ok? && ReadMessage(r0, WriteMessage(i0, ei, p1).1.value).1.Ok?
    ensures
      var (i1, m1) := WriteMessage(i0, ei, p1);
      var r1 := ReadMessage(r0, m1.value).0;
      Regular(i1) && Regular(r1) && i1.pattern == 1 == r1.pattern && i1.symmetric.hash != r1.symmetric.hash
  {
    var (i1, m1) := WriteMessage(i0, ei, p1);
    var (r1, g1) := ReadMessage(r0, m1.value);
    assert Processed(i0, m1.value, i1);
    assert ReadMessage(r0, m1.value) == (r1, Ok(g1.value));
    FirstHash(i0, m1.value, i1);
    FirstHash(r0, m1.value, r1);
    if i1.symmetric.hash == r1.symmetric.hash {
      HashAfterInjective(i0.symmetric.hash, m1.value, r0.symmetric.hash, m1.value, 0);
    }
  }

  /** For all keys and payloads, the initiator accepts message two if and only if both ends started from the same hash. */
  lemma SameHashNeeded(si: PrivateKey, sr: PrivateKey, ei: PrivateKey, er: PrivateKey,
                       p1: Bytes, p2: Bytes, a: Bytes, b: Bytes)
    requires |a| == KEY_LEN == |b|
    ensures SecondMessageRead(FromHash(Initiator, si, a), FromHash(Responder, sr, b), ei, er, p1, p2, a == b)
  {
    var i0, r0 := FromHash(Initiator, si, a), FromHash(Responder, sr, b);
    FirstMessageRead(i0, r0, ei, p1);
    var (i1, m1) := WriteMessage(i0, ei, p1);
    var r1 := ReadMessage(r0, m1.value).0;
    SecondMessageWritten(r1, er, p2);
    if a == b {
      FirstMessage(i0, r0, si, sr, ei, er, p1);
      SecondMessage(i1, r1, si, sr, ei, er, p2);
    } else {
      HashesDiverge(i0, r0, ei, p1);
      DivergenceRejected(r1, i1, er, p2);
    }
  }

  lemma NameIsNoHash(data: Bytes)
    ensures |ProtocolHash()| == KEY_LEN && ProtocolHash() != Hash(data)
  {
    assert ProtocolHash()[0] != Hash(data)[0];
  }

  /** Ends that mix in a prologue understand each other exactly when it is the same one. */
  lemma ProloguesMustMatch(si: PrivateKey, sr: PrivateKey, ei: PrivateKey, er: PrivateKey,
                           p1: Bytes, p2: Bytes, x: Bytes, y: Bytes)
    ensures SecondMessageRead(StandardStart(Initiator, si, x), StandardStart(Responder, sr, y), ei, er, p1, p2, x == y)
  {
    var name := ProtocolHash();
    SameHashNeeded(si, sr, ei, er, p1, p2, Hash(name + x), Hash(name + y));
    if Hash(name + x) == Hash(name + y) {
      AbsorbInjective(name, x, name, y);
    }
  }

  /**
   The code never mixes one in, not even the empty one: for every prologue, all keys and all payloads, a standard initiator
   rejects its message two and it rejects a standard responder's.
   */
  lemma PrologueMissing(si: PrivateKey, sr: PrivateKey, ei: PrivateKey, er: PrivateKey,
                        p1: Bytes, p2: Bytes, prologue: Bytes)
    ensures SecondMessageRead(StandardStart(Initiator, si, prologue), Start(Responder, sr), ei, er, p1, p2, false)
    ensures SecondMessageRead(Start(Initiator, si), StandardStart(Responder, sr, prologue), ei, er, p1, p2, false)
  {
    var name := ProtocolHash();
    NameIsNoHash(name + prologue);
    SameHashNeeded(si, sr, ei, er, p1, p2, Hash(name + prologue), name);
    SameHashNeeded(si, sr, ei, er, p1, p2, name, Hash(name + prologue));
    assert Start(Initiator, si) == FromHash(Initiator, si, name) && Start(Responder, sr) == FromHash(Responder, sr, name);
  }
}
