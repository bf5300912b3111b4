/**
 Two daemons with an established session on a lossless first-in first-out link, exchanging private messages, channel
 messages and delivery acknowledgements. The receive counter advances on every attempt, so the two ends agree on nonces
 only as long as every payload that the receiver tries to decrypt was encrypted by the sender.
 */
module SessionLink {
  import opened Outcomes
  import opened Symbolic
  import opened Noise

  /** A NOISE_ENCRYPTED packet, a DELIVERY_ACK that arrives with ttl 3, or a plaintext channel MESSAGE. */
  datatype Frame = Encrypted(payload: Bytes) | Ack(payload: Bytes) | Channel(id: nat)

  /**
   One end; `spoiled` counts the attempts that cost it a nonce for nothing, on plaintext acknowledgements. `keeps` tells
   whether a failed attempt leaves the counter alone, as section 5.1 of the Noise Protocol Framework asks; the code's does
   not.
   */
  datatype End = End(send: Cipher, receive: Cipher, processed: set<nat>, acked: set<nat>, spoiled: nat, keeps: bool)

  datatype Wire = Wire(a: End, b: End, ab: seq<Frame>, ba: seq<Frame>)

  /** The JSON of an acknowledgement. */
  function AckText(id: nat): Bytes {
    [Lit(id)]
  }

  /** The message id inside a decrypted private message; other plaintexts are ignored by the handler. */
  function MessageId(text: Bytes): Option<nat> {
    if |text| > 0 && text[0].Lit? then Some(text[0].b) else None
  }

  /** `_send_delivery_ack`: an acknowledgement goes out once per message, in the clear if encryption raises. */
  function SendAck(e: End, id: nat, isPrivate: bool): (End, seq<Frame>) {
    if id in e.acked then (e, [])
    else
      var e' := e.(acked := e.acked + {id});
      if !isPrivate then (e', [Ack(AckText(id))])
      else
        var (c, r) := Encrypt(e.send, AckText(id), []);
        (e'.(send := c), [Ack(if r.Ok? then r.value else AckText(id))])
  }

  predicate Sealed(f: Frame) {
    !f.Channel? && |f.payload| > 0 && f.payload[0].SealByte?
  }

  /** The decryption attempt that a packet triggers, if any, and its result. */
  function Attempt(e: End, f: Frame): (End, Option<Bytes>) {
    if f.Channel? then (e, None)
    else
      var (c, r) := Decrypt(e.receive, f.payload, []);
      var miss := if f.Ack? && !Sealed(f) && !e.keeps then 1 else 0;
      (e.(receive := if r.Err? && e.keeps then e.receive else c, spoiled := e.spoiled + miss),
       if r.Ok? then Some(r.value) else None)
  }

  /** The handlers `_handle_noise_encrypted`, `_handle_delivery_ack` and `_handle_message` for these packets. */
  function Receive(e: End, f: Frame, wantsAck: bool): (End, seq<Frame>) {
    var (e', text) := Attempt(e, f);
    match f
    case Encrypted(_) =>
      if text.None? || MessageId(text.value).None? then (e', []) else Accept(e', MessageId(text.value).value, true, true)
    case Ack(_) => (e', [])
    case Channel(id) => Accept(e', id, false, wantsAck)
  }

  /** A message id seen for the first time is recorded and acknowledged. */
  function Accept(e: End, id: nat, isPrivate: bool, wantsAck: bool): (End, seq<Frame>) {
    if id in e.processed then (e, [])
    else
      var e' := e.(processed := e.processed + {id});
      if wantsAck then SendAck(e', id, isPrivate) else (e', [])
  }

  /** `send_private_message` on an established session. */
  function SendPrivate(e: End, text: Bytes): (End, seq<Frame>) {
    var (c, r) := Encrypt(e.send, text, []);
    (e.(send := c), if r.Ok? then [Encrypted(r.value)] else [])
  }

  datatype Action =
    | Private(fromA: bool, text: Bytes)
    | Broadcast(fromA: bool, id: nat)
    | Deliver(toA: bool, wantsAck: bool)

  function Step(w: Wire, x: Action): Wire {
    match x
    case Private(true, t) => var (e, out) := SendPrivate(w.a, t); w.(a := e, ab := w.ab + out)
    case Private(false, t) => var (e, out) := SendPrivate(w.b, t); w.(b := e, ba := w.ba + out)
    case Broadcast(true, id) => w.(ab := w.ab + [Channel(id)])
    case Broadcast(false, id) => w.(ba := w.ba + [Channel(id)])
    case Deliver(true, k) =>
      if w.ba == [] then w
      else var (e, out) := Receive(w.a, w.ba[0], k); w.(a := e, ba := w.ba[1..], ab := w.ab + out)
    case Deliver(false, k) =>
      if w.ab == [] then w
      else var (e, out) := Receive(w.b, w.ab[0], k); w.(b := e, ab := w.ab[1..], ba := w.ba + out)
  }

  function Run(w: Wire, xs: seq<Action>): Wire
    decreases |xs|
  {
    if xs == [] then w else Step(Run(w, xs[..|xs| - 1]), xs[|xs| - 1])
  }

  /** A fresh session: crossed keys, all counters at zero, nothing in flight. */
  function Fresh(k1: Bytes, k2: Bytes): Wire {
    Starting(k1, k2, false)
  }

  function Starting(k1: Bytes, k2: Bytes, keeps: bool): Wire {
    Wire(End(Keyed(k1), Keyed(k2), {}, {}, 0, keeps), End(Keyed(k2), Keyed(k1), {}, {}, 0, keeps), [], [])
  }

  // ----- Alignment -----

  function SealedCount(q: seq<Frame>): nat {
    if q == [] then 0 else (if Sealed(q[0]) then 1 else 0) + SealedCount(q[1..])
  }

  predicate SealedAs(key: Bytes, nonce: nat, f: Frame)
    requires Sealed(f)
  {
    f.payload == Seal(key, nonce, [], f.payload[0].text)
  }

  /** The ciphertexts of a queue carry consecutive nonces from `base` on; everything else in it is in the clear. */
  predicate InOrder(key: Bytes, base: nat, q: seq<Frame>)
    decreases |q|
  {
    q == [] ||
    if Sealed(q[0]) then SealedAs(key, base, q[0]) && InOrder(key, base + 1, q[1..])
    else !q[0].Encrypted? && InOrder(key, base, q[1..])
  }

  /** Sender nonce minus ciphertexts in flight is the receiver nonce, off by exactly the spoiled attempts. */
  ghost predicate Aligned(x: End, q: seq<Frame>, y: End) {
    && x.send.key.Some? && y.receive.key == x.send.key
    && SealedCount(q) <= x.send.nonce <= NONCE_LIMIT
    && InOrder(x.send.key.value, x.send.nonce - SealedCount(q), q)
    && y.receive.nonce == Least(NONCE_LIMIT, x.send.nonce - SealedCount(q) + y.spoiled)
    && (y.keeps ==> y.spoiled == 0)
  }

  lemma {:induction false} Enqueue(key: Bytes, base: nat, q: seq<Frame>, f: Frame)
    requires InOrder(key, base, q)
    requires if Sealed(f) then SealedAs(key, base + SealedCount(q), f) else !f.Encrypted?
    ensures InOrder(key, base, q + [f])
    ensures SealedCount(q + [f]) == SealedCount(q) + if Sealed(f) then 1 else 0
    decreases |q|
  {
    if q == [] {
      assert (q + [f])[1..] == [];
    } else {
      assert (q + [f])[1..] == q[1..] + [f] && (q + [f])[0] == q[0];
      Enqueue(key, if Sealed(q[0]) then base + 1 else base, q[1..], f);
    }
  }

  lemma SendPrivateAligned(x: End, q: seq<Frame>, y: End, text: Bytes)
    requires Aligned(x, q, y)
    ensures var (x', out) := SendPrivate(x, text); Aligned(x', q + out, y)
  {
    var out := SendPrivate(x, text).1;
    if out == [] {
      assert q + out == q;
    } else {
      Enqueue(x.send.key.value, x.send.nonce - SealedCount(q), q, out[0]);
    }
  }

  lemma AcceptAligned(x: End, q: seq<Frame>, y: End, id: nat, isPrivate: bool, wantsAck: bool)
    requires Aligned(x, q, y)
    ensures
      var (x', out) := Accept(x, id, isPrivate, wantsAck);
      Aligned(x', q + out, y) && x'.receive == x.receive && x'.spoiled == x.spoiled && x'.keeps == x.keeps
  {
    var out := Accept(x, id, isPrivate, wantsAck).1;
    if out == [] {
      assert q + out == q;
    } else {
      Enqueue(x.send.key.value, x.send.nonce - SealedCount(q), q, out[0]);
    }
  }

  /** Sending in the clear keeps a direction aligned. */
  lemma ChannelAligned(x: End, q: seq<Frame>, y: End, id: nat)
    requires Aligned(x, q, y)
    ensures Aligned(x, q + [Channel(id)], y)
  {
    Enqueue(x.send.key.value, x.send.nonce - SealedCount(q), q, Channel(id));
  }

  /** A ciphertext at the head of an aligned queue decrypts exactly when nothing has been spoiled. */
  lemma HeadDecrypts(x: End, q: seq<Frame>, y: End)
    requires Aligned(x, q, y) && q != [] && Sealed(q[0])
    ensures Decrypt(y.receive, q[0].payload, []).1.Ok? <==> y.spoiled == 0
  {
    var key, base := x.send.key.value, x.send.nonce - SealedCount(q);
    OpenSeal(key, base, [], q[0].payload[0].text);
  }

  /** Taking the head off keeps the direction aligned, whatever the attempt on it did. */
  lemma AttemptAligned(x: End, q: seq<Frame>, y: End)
    requires Aligned(x, q, y) && q != []
    ensures Aligned(x, q[1..], Attempt(y, q[0]).0)
  {
    if Sealed(q[0]) {
      HeadDecrypts(x, q, y);
    }
  }

  lemma ReceiveAligned(x: End, q: seq<Frame>, y: End, p: seq<Frame>, wantsAck: bool)
    requires Aligned(x, q, y) && Aligned(y, p, x) && q != []
    ensures var (y', out) := Receive(y, q[0], wantsAck); Aligned(x, q[1..], y') && Aligned(y', p + out, x)
  {
    var (y1, text) := Attempt(y, q[0]);
    AttemptAligned(x, q, y);
    assert p + [] == p;
    if q[0].Channel? {
      AcceptAligned(y1, p, x, q[0].id, false, wantsAck);
    } else if q[0].Encrypted? && text.Some? && MessageId(text.value).Some? {
      AcceptAligned(y1, p, x, MessageId(text.value).value, true, true);
    }
  }

  ghost predicate BothAligned(w: Wire) {
    Aligned(w.a, w.ab, w.b) && Aligned(w.b, w.ba, w.a)
  }

  lemma StepAligned(w: Wire, x: Action)
    requires BothAligned(w)
    ensures BothAligned(Step(w, x))
  {
    match x
    case Private(true, t) => SendPrivateAligned(w.a, w.ab, w.b, t);
    case Private(false, t) => SendPrivateAligned(w.b, w.ba, w.a, t);
    case Broadcast(true, id) => ChannelAligned(w.a, w.ab, w.b, id);
    case Broadcast(false, id) => ChannelAligned(w.b, w.ba, w.a, id);
    case Deliver(true, k) =>
      if w.ba != [] {
        ReceiveAligned(w.b, w.ba, w.a, w.ab, k);
      }
    case Deliver(false, k) =>
      if w.ab != [] {
        ReceiveAligned(w.a, w.ab, w.b, w.ba, k);
      }
  }

  lemma {:induction false} RunAligned(k1: Bytes, k2: Bytes, keeps: bool, xs: seq<Action>)
    ensures BothAligned(Run(Starting(k1, k2, keeps), xs))
    ensures Run(Starting(k1, k2, keeps), xs).a.keeps == keeps == Run(Starting(k1, k2, keeps), xs).b.keeps
    decreases |xs|
  {
    if xs != [] {
      RunAligned(k1, k2, keeps, xs[..|xs| - 1]);
      StepAligned(Run(Starting(k1, k2, keeps), xs[..|xs| - 1]), xs[|xs| - 1]);
      StepKeeps(Run(Starting(k1, k2, keeps), xs[..|xs| - 1]), xs[|xs| - 1]);
    }
  }

  lemma StepKeeps(w: Wire, x: Action)
    ensures Step(w, x).a.keeps == w.a.keeps && Step(w, x).b.keeps == w.b.keeps
  {
    assert forall e: End, f, k :: Receive(e, f, k).0.keeps == e.keeps;
  }

  /**
   Over every run of a session: each direction's counters differ by the ciphertexts in flight, less the plaintext
   acknowledgements its receiver has tried to decrypt; and the next ciphertext decrypts exactly when there were none.
   */
  lemma NonceAlignment(k1: Bytes, k2: Bytes, xs: seq<Action>)
    ensures
      var w := Run(Fresh(k1, k2), xs);
      && SealedCount(w.ab) <= w.a.send.nonce && SealedCount(w.ba) <= w.b.send.nonce
      && w.b.receive.nonce == Least(NONCE_LIMIT, w.a.send.nonce - SealedCount(w.ab) + w.b.spoiled)
      && w.a.receive.nonce == Least(NONCE_LIMIT, w.b.send.nonce - SealedCount(w.ba) + w.a.spoiled)
      && (w.ab != [] && Sealed(w.ab[0]) ==> (Decrypt(w.b.receive, w.ab[0].payload, []).1.Ok? <==> w.b.spoiled == 0))
      && (w.ba != [] && Sealed(w.ba[0]) ==> (Decrypt(w.a.receive, w.ba[0].payload, []).1.Ok? <==> w.a.spoiled == 0))
  {
    RunAligned(k1, k2, false, xs);
    var w := Run(Fresh(k1, k2), xs);
    DirectionAligned(w.a, w.ab, w.b);
    DirectionAligned(w.b, w.ba, w.a);
  }

  lemma DirectionAligned(x: End, q: seq<Frame>, y: End)
    requires Aligned(x, q, y)
    ensures SealedCount(q) <= x.send.nonce
    ensures y.receive.nonce == Least(NONCE_LIMIT, x.send.nonce - SealedCount(q) + y.spoiled)
    ensures q != [] && Sealed(q[0]) ==> (Decrypt(y.receive, q[0].payload, []).1.Ok? <==> y.spoiled == 0)
  {
    if q != [] && Sealed(q[0]) {
      HeadDecrypts(x, q, y);
    }
  }

  // ----- When nothing is spoiled -----

  /** No plaintext acknowledgement or channel message anywhere, and no counter past the number of steps taken. */
  ghost predicate Clean(w: Wire, steps: nat) {
    && w.a.spoiled == 0 == w.b.spoiled && w.a.send.nonce <= steps && w.b.send.nonce <= steps
    && (forall f :: f in w.ab ==> Sealed(f)) && (forall f :: f in w.ba ==> Sealed(f))
  }

  /** Handling a ciphertext spoils nothing, encrypts at most once and replies only in ciphertext. */
  lemma CleanReceive(y: End, f: Frame, wantsAck: bool)
    requires Sealed(f) && y.send.key.Some? && y.send.nonce < NONCE_LIMIT
    ensures
      var (y', out) := Receive(y, f, wantsAck);
      && y'.spoiled == y.spoiled && y.send.nonce <= y'.send.nonce <= y.send.nonce + 1
      && forall g :: g in out ==> Sealed(g)
  {
  }

  lemma CleanStep(w: Wire, x: Action, steps: nat)
    requires BothAligned(w) && Clean(w, steps) && steps < NONCE_LIMIT && !x.Broadcast?
    ensures Clean(Step(w, x), steps + 1)
  {
    match x
    case Private(_, _) =>
    case Deliver(true, k) =>
      if w.ba != [] {
        CleanReceive(w.a, w.ba[0], k);
      }
    case Deliver(false, k) =>
      if w.ab != [] {
        CleanReceive(w.b, w.ab[0], k);
      }
  }

  /** Private messages and their acknowledgements alone never spoil a direction, so every decryption succeeds. */
  lemma {:induction false} PrivateRunsDecrypt(k1: Bytes, k2: Bytes, xs: seq<Action>)
    requires forall x :: x in xs ==> !x.Broadcast?
    requires |xs| <= NONCE_LIMIT
    ensures
      var w := Run(Fresh(k1, k2), xs);
      && Clean(w, |xs|)
      && (w.ab != [] ==> Sealed(w.ab[0]) && Decrypt(w.b.receive, w.ab[0].payload, []).1.Ok?)
      && (w.ba != [] ==> Sealed(w.ba[0]) && Decrypt(w.a.receive, w.ba[0].payload, []).1.Ok?)
    decreases |xs|
  {
    if xs != [] {
      var before := xs[..|xs| - 1];
      PrivateRunsDecrypt(k1, k2, before);
      RunAligned(k1, k2, false, before);
      CleanStep(Run(Fresh(k1, k2), before), xs[|xs| - 1], |before|);
    }
    NonceAlignment(k1, k2, xs);
  }

  /** One acknowledged channel message breaks the session: the next private message back is lost. */
  lemma ChannelAckBreaksSession(k1: Bytes, k2: Bytes, id: nat, text: Bytes)
    ensures
      var xs := [Broadcast(true, id), Deliver(false, true), Deliver(true, false), Private(false, text)];
      var w := Run(Fresh(k1, k2), xs);
      && w.a.spoiled == 1 && |w.ba| == 1 && Sealed(w.ba[0])
      && Decrypt(w.a.receive, w.ba[0].payload, []).1.Err?
  {
    var xs := [Broadcast(true, id), Deliver(false, true), Deliver(true, false), Private(false, text)];
    var w0 := Fresh(k1, k2);
    var w1 := Step(w0, xs[0]);
    assert Run(w0, xs[..1]) == w1;
    var w2 := Step(w1, xs[1]);
    assert Run(w0, xs[..2]) == w2 by { assert xs[..2][..1] == xs[..1]; }
    var w3 := Step(w2, xs[2]);
    assert Run(w0, xs[..3]) == w3 by { assert xs[..3][..2] == xs[..2]; }
    assert w3.a.spoiled == 1 && w3.ba == [];
    NonceAlignment(k1, k2, xs);
  }

  lemma {:induction false} RunTogether(w: Wire, xs: seq<Action>, ys: seq<Action>)
    ensures Run(w, xs + ys) == Run(Run(w, xs), ys)
    decreases |ys|
  {
    if ys == [] {
      assert xs + ys == xs;
    } else {
      var front := ys[..|ys| - 1];
      assert (xs + ys)[..|xs + ys| - 1] == xs + front;
      RunTogether(w, xs, front);
    }
  }

  lemma {:induction false} SpoiledKept(w: Wire, xs: seq<Action>)
    ensures Run(w, xs).a.spoiled >= w.a.spoiled && Run(w, xs).b.spoiled >= w.b.spoiled
    decreases |xs|
  {
    if xs != [] {
      SpoiledKept(w, xs[..|xs| - 1]);
      StepSpoiled(Run(w, xs[..|xs| - 1]), xs[|xs| - 1]);
    }
  }

  lemma ReceiveSpoiled(e: End, f: Frame, wantsAck: bool)
    ensures Receive(e, f, wantsAck).0.spoiled >= e.spoiled
  {
  }

  lemma StepSpoiled(w: Wire, x: Action)
    ensures Step(w, x).a.spoiled >= w.a.spoiled && Step(w, x).b.spoiled >= w.b.spoiled
  {
    if x.Deliver? {
      if w.ba != [] {
        ReceiveSpoiled(w.a, w.ba[0], x.wantsAck);
      }
      if w.ab != [] {
        ReceiveSpoiled(w.b, w.ab[0], x.wantsAck);
      }
    }
  }

  /** A spoiled direction never recovers: after any continuation its next ciphertext still fails. */
  lemma SpoiledForever(k1: Bytes, k2: Bytes, xs: seq<Action>, ys: seq<Action>)
    ensures
      var w, w' := Run(Fresh(k1, k2), xs), Run(Fresh(k1, k2), xs + ys);
      && (w.a.spoiled > 0 && w'.ba != [] && Sealed(w'.ba[0]) ==> Decrypt(w'.a.receive, w'.ba[0].payload, []).1.Err?)
      && (w.b.spoiled > 0 && w'.ab != [] && Sealed(w'.ab[0]) ==> Decrypt(w'.b.receive, w'.ab[0].payload, []).1.Err?)
  {
    RunTogether(Fresh(k1, k2), xs, ys);
    SpoiledKept(Run(Fresh(k1, k2), xs), ys);
    NonceAlignment(k1, k2, xs + ys);
  }

  // ----- Symmetry -----

  function Mirror(w: Wire): Wire {
    Wire(w.b, w.a, w.ba, w.ab)
  }

  function MirrorAction(x: Action): Action {
    match x
    case Private(fromA, text) => Private(!fromA, text)
    case Broadcast(fromA, id) => Broadcast(!fromA, id)
    case Deliver(toA, wantsAck) => Deliver(!toA, wantsAck)
  }

  /** The two ends play the same part. */
  lemma StepMirrors(w: Wire, x: Action)
    ensures Mirror(Step(w, x)) == Step(Mirror(w), MirrorAction(x))
  {
  }

  // ----- Acknowledgements -----

  /**
   A private message that decrypts for the first time is acknowledged once, by a ciphertext of its id under the next nonce;
   a repeated one is not; an acknowledgement is not acknowledged.
   */
  lemma PrivateAcknowledged(e: End, f: Frame, wantsAck: bool)
    requires e.receive.key.Some? && e.receive.nonce < NONCE_LIMIT && e.send.key.Some? && e.send.nonce < NONCE_LIMIT
    requires e.acked <= e.processed
    ensures
      var (e', out) := Receive(e, f, wantsAck);
      var text := Open(e.receive.key.value, e.receive.nonce, [], if f.Channel? then [] else f.payload);
      && (f.Ack? ==> out == [] && e'.processed == e.processed)
      && (f.Encrypted? && (text.None? || MessageId(text.value).None?) ==> out == [] && e'.processed == e.processed)
      && (f.Encrypted? && text.Some? && MessageId(text.value).Some? ==>
            var id := MessageId(text.value).value;
            && e'.processed == e.processed + {id}
            && out == if id in e.processed then [] else [Ack(Seal(e.send.key.value, e.send.nonce, [], AckText(id)))])
      && (f.Channel? ==>
            && e'.processed == e.processed + {f.id}
            && out == if wantsAck && f.id !in e.processed then [Ack(AckText(f.id))] else [])
      && e'.acked <= e'.processed
  {
  }

  // ----- What the framework asks for -----

  /**
   With ends that leave the counter alone on a failed attempt, every ciphertext decrypts on every run, whatever plaintext
   acknowledgements and channel messages come between: the breakdown above is due to the code's advancing counter alone.
   */
  lemma KeptNonceDecrypts(k1: Bytes, k2: Bytes, xs: seq<Action>)
    ensures
      var w := Run(Starting(k1, k2, true), xs);
      && SealedCount(w.ab) <= w.a.send.nonce && w.b.receive.nonce == w.a.send.nonce - SealedCount(w.ab)
      && SealedCount(w.ba) <= w.b.send.nonce && w.a.receive.nonce == w.b.send.nonce - SealedCount(w.ba)
      && (w.ab != [] && Sealed(w.ab[0]) ==>
            Decrypt(w.b.receive, w.ab[0].payload, []).1 == Ok(w.ab[0].payload[0].text))
      && (w.ba != [] && Sealed(w.ba[0]) ==>
            Decrypt(w.a.receive, w.ba[0].payload, []).1 == Ok(w.ba[0].payload[0].text))
  {
    RunAligned(k1, k2, true, xs);
    var w := Run(Starting(k1, k2, true), xs);
    if w.ab != [] && Sealed(w.ab[0]) {
      HeadText(w.a, w.ab, w.b);
    }
    if w.ba != [] && Sealed(w.ba[0]) {
      HeadText(w.b, w.ba, w.a);
    }
  }

  lemma HeadText(x: End, q: seq<Frame>, y: End)
    requires Aligned(x, q, y) && q != [] && Sealed(q[0]) && y.spoiled == 0
    ensures Decrypt(y.receive, q[0].payload, []).1 == Ok(q[0].payload[0].text)
  {
    var key, base := x.send.key.value, x.send.nonce - SealedCount(q);
    OpenSeal(key, base, [], q[0].payload[0].text);
  }
}
