/** Ids on the wire: the parser strips trailing zero bytes, while a daemon compares with its own eight bytes unstripped. */
module PeerIds {
  import opened Outcomes
  import opened Octets
  import opened PacketCodec

  /** An id as its receivers read it. */
  function Seen(id: Bytes): Bytes {
    StripZeros(Id8(id))
  }

  /** The recipient field of a packet addressed to a peer, as its receivers read it; no name at all means everybody. */
  function ReadRecipient(name: Bytes): Bytes {
    StripZeros(if name != [] then Id8(name) else BROADCAST)
  }

  /** The sender that receivers read in a created packet, after any relays, is `Seen` of the sender's id. */
  lemma SenderSeen(d: Draft, millis: nat, filler: nat -> byte, k: nat, inflate: Bytes -> Option<Bytes>)
    requires KnownType(d.kind) && Create(d, millis, filler).Some? && k < DEFAULT_TTL
    ensures
      var raw := Create(d, millis, filler).value;
      && |raw| > 2 && AfterRelays(raw, k).Some?
      && var p := Parse(AfterRelays(raw, k).value, inflate);
      && p.Ok? && p.value.sender == Seen(d.sender)
      && (d.recipient.Some? ==> p.value.recipient == Some(ReadRecipient(d.recipient.value)))
  {
    PacketRoundTrip(d, millis, filler, k, inflate);
  }

  /** A daemon's id is read as itself if it does not end in a zero byte, and otherwise as no daemon's id. */
  lemma SeenAs(id: Bytes, other: Bytes)
    requires |id| == ID_SIZE == |other|
    ensures Seen(id) == other <==> id == other && !EndsInZero(id)
  {
    IdSurvives(id);
    StripShortens(id);
    assert Id8(id) == id;
  }

  /** A reply to a packet reaches its sender's own check if and only if the sender's id survives. */
  lemma ReplyAddressed(id: Bytes)
    requires |id| == ID_SIZE
    ensures ReadRecipient(Seen(id)) != []
    ensures ReadRecipient(Seen(id)) == id <==> !EndsInZero(id)
  {
    assert Id8(id) == id;
    StripShortens(id);
    var name := Seen(id);
    StrippedEnd(id);
    if name != [] {
      if |name| < ID_SIZE {
        StripPadding(name, ID_SIZE - |name|);
      } else {
        StripPadding(name, 0);
        assert Id8(name) == name;
      }
    } else {
      assert EndsInZero(id);
      assert !EndsInZero(BROADCAST) && StripZeros(BROADCAST) == BROADCAST;
    }
  }

  lemma {:induction false} StrippedEnd(s: Bytes)
    ensures !EndsInZero(StripZeros(s))
    decreases |s|
  {
    if EndsInZero(s) {
      StrippedEnd(s[..|s| - 1]);
    }
  }

  // ----- Whom a packet is for -----

  /** The message handler's check, on the recipient it reads: no recipient, everybody, or the daemon itself. */
  predicate ForUs(recipient: Option<Bytes>, own: Bytes) {
    || recipient.None? || recipient.value == []
    || recipient.value == [0xFF, 0xFF, 0xFF, 0xFF, 0xFF, 0xFF, 0xFF, 0xFF]
    || recipient.value == own
  }

  /** The recipient that is read in a created packet, after any relays. */
  lemma RecipientRead(d: Draft, millis: nat, filler: nat -> byte, k: nat, inflate: Bytes -> Option<Bytes>)
    requires KnownType(d.kind) && Create(d, millis, filler).Some? && k < DEFAULT_TTL
    ensures
      var raw := Create(d, millis, filler).value;
      && |raw| > 2 && AfterRelays(raw, k).Some?
      && var p := Parse(AfterRelays(raw, k).value, inflate);
      && p.Ok?
      && p.value.recipient ==
         if d.recipient.None? && (d.kind == 5 || d.kind == 6 || d.kind == 7) then None
         else if d.recipient.None? || d.recipient.value == [] then Some([0xFF, 0xFF, 0xFF, 0xFF, 0xFF, 0xFF, 0xFF, 0xFF])
         else Some(Seen(d.recipient.value))
  {
    PacketRoundTrip(d, millis, filler, k, inflate);
    var everybody: Bytes := [0xFF, 0xFF, 0xFF, 0xFF, 0xFF, 0xFF, 0xFF, 0xFF];
    assert StripZeros(everybody) == everybody;
  }

  predicate AllZero(id: Bytes) {
    forall i :: 0 <= i < |id| ==> id[i] == 0
  }

  lemma {:induction false} StripsToNothing(id: Bytes)
    ensures StripZeros(id) == [] <==> AllZero(id)
    decreases |id|
  {
    if id != [] && id[|id| - 1] == 0 {
      StripsToNothing(id[..|id| - 1]);
      assert id == id[..|id| - 1] + [0];
    }
  }

  /**
   A packet created without a recipient is for every daemon. One created for an eight-byte id is for exactly the daemon
   with that id, and only if the id does not end in a zero byte; the ids of all zeros and of all 0xFF are read as everybody.
   */
  lemma AddressedExactly(d: Draft, millis: nat, filler: nat -> byte, k: nat, inflate: Bytes -> Option<Bytes>, own: Bytes)
    requires KnownType(d.kind) && Create(d, millis, filler).Some? && k < DEFAULT_TTL && |own| == ID_SIZE
    requires d.recipient.Some? ==> |d.recipient.value| == ID_SIZE
    ensures
      var raw := Create(d, millis, filler).value;
      && |raw| > 2 && AfterRelays(raw, k).Some?
      && var p := Parse(AfterRelays(raw, k).value, inflate);
      && p.Ok?
      && (d.recipient.None? ==> ForUs(p.value.recipient, own))
      && (d.recipient.Some? ==>
            var id := d.recipient.value;
            ForUs(p.value.recipient, own) <==>
              AllZero(id) || id == [0xFF, 0xFF, 0xFF, 0xFF, 0xFF, 0xFF, 0xFF, 0xFF] || (own == id && !EndsInZero(id)))
  {
    RecipientRead(d, millis, filler, k, inflate);
    if d.recipient.Some? {
      var id := d.recipient.value;
      SeenAs(id, own);
      SeenAs(id, [0xFF, 0xFF, 0xFF, 0xFF, 0xFF, 0xFF, 0xFF, 0xFF]);
      assert Id8(id) == id;
      StripsToNothing(id);
    }
  }
}
