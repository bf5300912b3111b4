/** `EncryptionService` as a value: the per-peer session and handshake dictionaries and the operations on them. */
module Service {
  import opened Outcomes
  import opened Symbolic
  import opened Noise
  import Octets

  /** A peer's name, which the source writes in hexadecimal. */
  type PeerId = Octets.Bytes

  datatype Directory = Directory(
    identity: PrivateKey,
    sessions: map<PeerId, Session>,
    handshakes: map<PeerId, Handshake>)

  function Empty(identity: PrivateKey): Directory {
    Directory(identity, map[], map[])
  }

  function WithoutHandshake(d: Directory, peer: PeerId): Directory {
    d.(handshakes := d.handshakes - {peer})
  }

  /** Start over with a peer: forget both entries and write message one as initiator. */
  function Initiate(d: Directory, peer: PeerId, ephemeral: PrivateKey): (Directory, Reply<Bytes>) {
    var (h, m) := WriteMessage(Start(Initiator, d.identity), ephemeral, []);
    (d.(sessions := d.sessions - {peer}, handshakes := d.handshakes[peer := h]), m)
  }

  /** The stored handshake of a peer, or a fresh responder. */
  function Current(d: Directory, peer: PeerId): Handshake {
    if peer in d.handshakes then d.handshakes[peer] else Start(Responder, d.identity)
  }

  /** Read a message and, unless that completed the handshake, write the next one. */
  function Respond(h: Handshake, message: Bytes, ephemeral: PrivateKey): (Handshake, Reply<Option<Bytes>>) {
    var (h1, payload) := ReadMessage(h, message);
    if payload.Err? then (h1, Err(payload.error))
    else if Complete(h1) then (h1, Ok(None))
    else
      var (h2, response) := WriteMessage(h1, ephemeral, []);
      (h2, if response.Ok? then Ok(Some(response.value)) else Err(response.error))
  }

  function SessionOf(h: Handshake): Session
    requires h.remoteStatic.Some?
  {
    Session(Split(h).0, Split(h).1, h.remoteStatic.value)
  }

  /** `process_handshake_message`. */
  function Process(d: Directory, peer: PeerId, message: Bytes, ephemeral: PrivateKey): (Directory, Reply<Option<Bytes>>) {
    if |message| < KEY_LEN then (d, Err(ShortMessage))
    else
      var h := Current(d, peer);
      if Complete(h) then (d.(handshakes := d.handshakes[peer := h]), Ok(None))
      else
        var (h', response) := Respond(h, message, ephemeral);
        (Settle(d, peer, h', response.Ok?), response)
  }

  /** Where the handshake ends up: dropped after an exception, turned into a session once complete, or stored. */
  function Settle(d: Directory, peer: PeerId, h: Handshake, ok: bool): Directory {
    if !ok then WithoutHandshake(d, peer)
    else if Complete(h) && h.remoteStatic.Some? then
      WithoutHandshake(d, peer).(sessions := d.sessions[peer := SessionOf(h)])
    else d.(handshakes := d.handshakes[peer := h])
  }

  function EncryptFor(d: Directory, peer: PeerId, text: Bytes): (Directory, Reply<Bytes>) {
    if peer !in d.sessions then (d, Err(NoSession))
    else
      var (c, r) := Encrypt(d.sessions[peer].send, text, []);
      (d.(sessions := d.sessions[peer := d.sessions[peer].(send := c)]), r)
  }

  function DecryptFrom(d: Directory, peer: PeerId, data: Bytes): (Directory, Reply<Bytes>) {
    if peer !in d.sessions then (d, Err(NoSession))
    else
      var (c, r) := Decrypt(d.sessions[peer].receive, data, []);
      (d.(sessions := d.sessions[peer := d.sessions[peer].(receive := c)]), r)
  }

  function Remove(d: Directory, peer: PeerId): Directory {
    d.(sessions := d.sessions - {peer}, handshakes := d.handshakes - {peer})
  }

  /** `cleanup_old_sessions`, the set of expired peers chosen by the clock. */
  function Expire(d: Directory, expired: set<PeerId>): Directory {
    d.(sessions := d.sessions - expired)
  }

  /**
   A handshake packet at the daemon: the NOISE handlers clear the peer's handshake when processing raises, the
   KEY_EXCHANGE handler does not.
   */
  function Receive(d: Directory, peer: PeerId, message: Bytes, ephemeral: PrivateKey, keyExchange: bool)
    : (Directory, Option<Bytes>)
  {
    var (d', r) := Process(d, peer, message, ephemeral);
    if r.Ok? then (d', r.value)
    else (if keyExchange then d' else WithoutHandshake(d', peer), None)
  }

  // ----- Runs -----

  datatype Op =
    | OpInitiate(peer: PeerId, ephemeral: PrivateKey)
    | OpReceive(peer: PeerId, message: Bytes, ephemeral: PrivateKey, keyExchange: bool)
    | OpEncrypt(peer: PeerId, text: Bytes)
    | OpDecrypt(peer: PeerId, data: Bytes)
    | OpRemove(peer: PeerId)
    | OpClear(peer: PeerId)
    | OpExpire(expired: set<PeerId>)

  function Apply(d: Directory, op: Op): Directory {
    match op
    case OpInitiate(p, e) => Initiate(d, p, e).0
    case OpReceive(p, m, e, k) => Receive(d, p, m, e, k).0
    case OpEncrypt(p, t) => EncryptFor(d, p, t).0
    case OpDecrypt(p, t) => DecryptFrom(d, p, t).0
    case OpRemove(p) => Remove(d, p)
    case OpClear(p) => WithoutHandshake(d, p)
    case OpExpire(ps) => Expire(d, ps)
  }

  function Run(d: Directory, ops: seq<Op>): Directory
    decreases |ops|
  {
    if ops == [] then d else Apply(Run(d, ops[..|ops| - 1]), ops[|ops| - 1])
  }
}
