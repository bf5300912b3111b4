/** The packet format of `bitchat/protocol.py`: creation with padding, parsing, and the one-byte patch of a relay. */
module PacketCodec {
  import opened Outcomes
  import opened Octets

  const FRAGMENT_START: byte := 5
  const FRAGMENT_CONTINUE: byte := 6
  const FRAGMENT_END: byte := 7
  const DEFAULT_TTL: byte := 7
  const ID_SIZE: nat := 8
  /** Version, type, TTL, eight bytes of timestamp, flags and two bytes of payload length. */
  const HEADER_SIZE: nat := 14
  /** What the parser's own size check takes the header to be. */
  const CHECKED_HEADER_SIZE: nat := 13
  const BROADCAST: Bytes := [0xFF, 0xFF, 0xFF, 0xFF, 0xFF, 0xFF, 0xFF, 0xFF]

  /** The values of `MessageType`. */
  predicate KnownType(t: byte) {
    0x01 <= t <= 0x0C || 0x10 <= t <= 0x17 || 0x20 <= t <= 0x21
  }

  predicate FragmentType(t: byte) {
    FRAGMENT_START <= t <= FRAGMENT_END
  }

  datatype Packet = Packet(kind: byte, sender: Bytes, recipient: Option<Bytes>, payload: Bytes, ttl: byte)

  datatype ParseError = TooSmall | BadVersion | UnknownType | BadCompression

  // ----- Creation -----

  /** An id as eight bytes: cut to length or padded with zeros. */
  function Id8(id: Bytes): (r: Bytes)
    ensures |r| == ID_SIZE
  {
    if |id| >= ID_SIZE then id[..ID_SIZE] else id + Zeros(ID_SIZE - |id|)
  }

  /** Everything the caller supplies; an empty recipient or signature is falsy in the source. */
  datatype Draft = Draft(kind: byte, sender: Bytes, recipient: Option<Bytes>, payload: Bytes, signature: Bytes)

  predicate HasRecipient(d: Draft) {
    d.recipient.Some? || !FragmentType(d.kind)
  }

  /** The eight recipient bytes on the wire, where there are any. */
  function Addressee(d: Draft): (r: Bytes)
    ensures |r| == ID_SIZE
  {
    if d.recipient.Some? && d.recipient.value != [] then Id8(d.recipient.value) else BROADCAST
  }

  function Flags(d: Draft): byte {
    (if HasRecipient(d) then 1 else 0) + (if d.signature != [] then 2 else 0)
  }

  function Header(d: Draft, millis: nat): (h: Bytes)
    ensures |h| == HEADER_SIZE
  {
    [1, d.kind, DEFAULT_TTL] + BigEndian(millis, 8) + [Flags(d)] + BigEndian(|d.payload|, 2)
  }

  /** The packet before padding. */
  function Unpadded(d: Draft, millis: nat): Bytes {
    Header(d, millis) + Id8(d.sender) + (if HasRecipient(d) then Addressee(d) else []) + d.payload + d.signature
  }

  /** The smallest block that leaves 16 bytes of room, or the packet's own size if none does. */
  function TargetSize(n: nat): nat {
    if n + 16 <= 256 then 256
    else if n + 16 <= 512 then 512
    else if n + 16 <= 1024 then 1024
    else if n + 16 <= 2048 then 2048
    else n
  }

  function Filler(n: nat, filler: nat -> byte): Bytes {
    seq(n, i requires 0 <= i => filler(i))
  }

  /** Random filler and a last byte that holds the padding length; nothing if more than 255 bytes would be needed. */
  function Padding(n: nat, filler: nat -> byte): Bytes {
    var needed := TargetSize(n) - n;
    if 0 < needed <= 255 then Filler(needed - 1, filler) + [needed] else []
  }

  /** `create_bitchat_packet_with_recipient`; None where packing the payload length raises. */
  function Create(d: Draft, millis: nat, filler: nat -> byte): Option<Bytes> {
    if |d.payload| >= U16_LIMIT || millis >= U64_LIMIT then None
    else var u := Unpadded(d, millis); Some(u + Padding(|u|, filler))
  }

  const BLOCKS: seq<nat> := [256, 512, 1024, 2048]

  /** The search loop over block sizes. */
  method FindTarget(n: nat) returns (target: nat)
    ensures target == TargetSize(n)
  {
    var k := 0;
    assert BLOCKS[0] == 256 && BLOCKS[1] == 512 && BLOCKS[2] == 1024 && BLOCKS[3] == 2048;
    while k < |BLOCKS|
      invariant 0 <= k <= |BLOCKS|
      invariant forall j :: 0 <= j < k ==> n + 16 > BLOCKS[j]
    {
      if n + 16 <= BLOCKS[k] {
        return BLOCKS[k];
      }
      k := k + 1;
    }
    target := n;
  }

  /** The encoder as it is written: append field after field, then pad. */
  method CreatePacket(d: Draft, millis: nat, filler: nat -> byte) returns (r: Option<Bytes>)
    ensures r == Create(d, millis, filler)
  {
    if |d.payload| >= U16_LIMIT || millis >= U64_LIMIT {
      return None;
    }
    var packet: Bytes := [1, d.kind, DEFAULT_TTL];
    packet := packet + BigEndian(millis, 8);
    var flags := 0;
    if d.recipient.Some? || !FragmentType(d.kind) {
      flags := flags + 1;
    }
    if d.signature != [] {
      flags := flags + 2;
    }
    packet := packet + [flags];
    packet := packet + BigEndian(|d.payload|, 2);
    packet := packet + Id8(d.sender);
    if HasRecipient(d) {
      packet := packet + Addressee(d);
    }
    packet := packet + d.payload + d.signature;
    assert packet == Unpadded(d, millis);
    var target := FindTarget(|packet|);
    var needed := target - |packet|;
    if 0 < needed <= 255 {
      packet := packet + (Filler(needed - 1, filler) + [needed]);
    }
    assert Unpadded(d, millis) + [] == Unpadded(d, millis);
    r := Some(packet);
  }

  // ----- Parsing and relaying -----

  function Parse(data: Bytes, inflate: Bytes -> Option<Bytes>): Result<Packet, ParseError> {
    if |data| < CHECKED_HEADER_SIZE + ID_SIZE then Err(TooSmall)
    else if data[0] != 1 then Err(BadVersion)
    else if !KnownType(data[1]) then Err(UnknownType)
    else
      var flags := data[11];
      var length := FromBigEndian(data[12..14]);
      var sender := StripZeros(Slice(data, 14, 22));
      var recipient := if flags % 2 == 1 then Some(StripZeros(Slice(data, 22, 30))) else None;
      var start := if flags % 2 == 1 then 30 else 22;
      var payload := Slice(data, start, start + length);
      if flags / 4 % 2 == 0 then Ok(Packet(data[1], sender, recipient, payload, data[2]))
      else
        var plain := inflate(payload);
        if plain.None? then Err(BadCompression) else Ok(Packet(data[1], sender, recipient, plain.value, data[2]))
  }

  /** What a relay forwards: the same bytes with the TTL decremented, or nothing when the TTL is spent. */
  function Relayed(raw: Bytes): (r: Option<Bytes>)
    requires |raw| > 2
    ensures r.Some? ==> |r.value| == |raw|
  {
    if raw[2] <= 1 then None else Some(raw[2 := raw[2] - 1])
  }

  /** The relay's patch of a mutable copy of the packet. */
  method RelayRaw(raw: Bytes, ttl: byte) returns (r: Option<Bytes>)
    requires |raw| > 2 && ttl == raw[2]
    ensures r == Relayed(raw)
  {
    if ttl <= 1 {
      return None;
    }
    var buffer := new byte[|raw|](i requires 0 <= i < |raw| => raw[i]);
    buffer[2] := ttl - 1;
    assert buffer[..] == raw[2 := ttl - 1];
    r := Some(buffer[..]);
  }

  /** The packet after k relays, or None once one of them refuses. */
  function AfterRelays(raw: Bytes, k: nat): Option<Bytes>
    requires |raw| > 2
    decreases k
  {
    if k == 0 then Some(raw)
    else
      var next := Relayed(raw);
      if next.None? then None else AfterRelays(next.value, k - 1)
  }

  lemma {:induction false} RelaysPatch(raw: Bytes, k: nat)
    requires |raw| > 2
    ensures k < raw[2] ==> AfterRelays(raw, k) == Some(raw[2 := raw[2] - k])
    ensures k >= raw[2] && k > 0 ==> AfterRelays(raw, k).None?
    decreases k
  {
    if k == 0 {
      assert raw[2 := raw[2]] == raw;
    } else if raw[2] > 1 {
      var next := raw[2 := raw[2] - 1];
      RelaysPatch(next, k - 1);
      assert k < raw[2] ==> next[2 := next[2] - (k - 1)] == raw[2 := raw[2] - k];
    }
  }

  // ----- Round trip -----

  /** What parsing returns for a draft. */
  function Expected(d: Draft, ttl: byte): Packet {
    Packet(d.kind, StripZeros(Id8(d.sender)),
           if HasRecipient(d) then Some(StripZeros(Addressee(d))) else None, d.payload, ttl)
  }

  /** Where the fields of a created packet lie, whatever the padding. */
  lemma Layout(d: Draft, millis: nat, tail: Bytes)
    ensures
      var data := Unpadded(d, millis) + tail;
      var start := if HasRecipient(d) then 30 else 22;
      && |data| >= start + |d.payload|
      && data[0] == 1 && data[1] == d.kind && data[2] == DEFAULT_TTL && data[11] == Flags(d)
      && data[12..14] == BigEndian(|d.payload|, 2)
      && data[14..22] == Id8(d.sender)
      && (HasRecipient(d) ==> data[22..30] == Addressee(d))
      && data[start..start + |d.payload|] == d.payload
  {
    var h, i := Header(d, millis), Id8(d.sender);
    var data := Unpadded(d, millis) + tail;
    assert data[..14] == h;
    assert h[..3] == [1, d.kind, DEFAULT_TTL] && h[11] == Flags(d) && h[12..14] == BigEndian(|d.payload|, 2);
    assert data[0] == h[0] && data[1] == h[1] && data[2] == h[2] && data[11] == h[11];
    assert data[12..14] == h[12..14];
  }

  lemma ParseCreated(d: Draft, millis: nat, tail: Bytes, inflate: Bytes -> Option<Bytes>)
    requires KnownType(d.kind) && |d.payload| < U16_LIMIT
    ensures Parse(Unpadded(d, millis) + tail, inflate) == Ok(Expected(d, DEFAULT_TTL))
  {
    Layout(d, millis, tail);
    U16RoundTrip(|d.payload|);
    ParseFields(Unpadded(d, millis) + tail, d, inflate);
  }

  /** The parser's result, from where the fields lie. */
  lemma ParseFields(data: Bytes, d: Draft, inflate: Bytes -> Option<Bytes>)
    requires KnownType(d.kind)
    requires |data| >= (if HasRecipient(d) then 30 else 22) + |d.payload|
    requires data[0] == 1 && data[1] == d.kind && data[2] == DEFAULT_TTL && data[11] == Flags(d)
    requires FromBigEndian(data[12..14]) == |d.payload| && data[14..22] == Id8(d.sender)
    requires HasRecipient(d) ==> data[22..30] == Addressee(d)
    requires var start := if HasRecipient(d) then 30 else 22; data[start..start + |d.payload|] == d.payload
    ensures Parse(data, inflate) == Ok(Expected(d, DEFAULT_TTL))
  {
    var start := if HasRecipient(d) then 30 else 22;
    assert Flags(d) % 2 == 1 <==> HasRecipient(d);
    assert Flags(d) / 4 % 2 == 0;
    assert Slice(data, 14, 22) == Id8(d.sender);
    assert HasRecipient(d) ==> Slice(data, 22, 30) == Addressee(d);
    assert Slice(data, start, start + |d.payload|) == d.payload;
  }

  /** Patching the TTL changes nothing else that the parser sees. */
  lemma ParsePatched(raw: Bytes, t: byte, inflate: Bytes -> Option<Bytes>)
    requires Parse(raw, inflate).Ok?
    ensures Parse(raw[2 := t], inflate) == Ok(Parse(raw, inflate).value.(ttl := t))
  {
    var sent := raw[2 := t];
    assert sent[12..14] == raw[12..14];
    assert forall lo, hi | lo > 2 :: Slice(sent, lo, hi) == Slice(raw, lo, hi);
  }

  /** Any packet that parses still parses after its relays, to the same fields with the TTL down by their number. */
  lemma RelaysParse(raw: Bytes, k: nat, inflate: Bytes -> Option<Bytes>)
    requires |raw| > 2 && Parse(raw, inflate).Ok? && k < raw[2]
    ensures AfterRelays(raw, k).Some?
    ensures Parse(AfterRelays(raw, k).value, inflate) == Ok(Parse(raw, inflate).value.(ttl := raw[2] - k))
  {
    RelaysPatch(raw, k);
    ParsePatched(raw, raw[2] - k, inflate);
  }

  /**
   Round trip: a created packet, after any number of relays that its TTL allows, parses to the same type, payload and
   (stripped) ids with the TTL down by that number; one relay more and there is no packet.
   */
  lemma PacketRoundTrip(d: Draft, millis: nat, filler: nat -> byte, k: nat, inflate: Bytes -> Option<Bytes>)
    requires KnownType(d.kind) && Create(d, millis, filler).Some?
    ensures
      var raw := Create(d, millis, filler).value;
      && |raw| > 2
      && (k < DEFAULT_TTL ==>
            && AfterRelays(raw, k).Some?
            && Parse(AfterRelays(raw, k).value, inflate) == Ok(Expected(d, DEFAULT_TTL - k)))
      && (k >= DEFAULT_TTL ==> AfterRelays(raw, k).None?)
  {
    var tail := Padding(|Unpadded(d, millis)|, filler);
    var raw := Unpadded(d, millis) + tail;
    assert raw[2] == DEFAULT_TTL by { Layout(d, millis, tail); }
    ParseCreated(d, millis, tail, inflate);
    if k < DEFAULT_TTL {
      RelaysParse(raw, k, inflate);
    } else {
      RelaysPatch(raw, k);
    }
  }

  /** An id comes back unchanged exactly when it fits eight bytes and does not end in a zero byte. */
  lemma IdSurvives(id: Bytes)
    ensures StripZeros(Id8(id)) == id <==> |id| <= ID_SIZE && !EndsInZero(id)
  {
    if |id| < ID_SIZE {
      StripPadding(id, ID_SIZE - |id|);
    } else {
      StripPadding(id[..ID_SIZE], 0);
      StripShortens(id[..ID_SIZE]);
      assert |id| == ID_SIZE ==> id[..ID_SIZE] == id;
    }
  }

  // ----- Field by field -----

  /** An id keeps its first eight bytes and is filled up with zeros. */
  lemma Id8Bytes(id: Bytes, i: nat)
    requires i < 8
    ensures Id8(id)[i] == if i < |id| then id[i] else 0
  {
  }

  /** Creation fails exactly when the payload length or the clock does not fit its field. */
  lemma CreateFails(d: Draft, millis: nat, filler: nat -> byte)
    ensures Create(d, millis, filler).None? <==> |d.payload| >= 65536 || millis >= U64_LIMIT
  {
  }

  /**
   What is on the wire, by offset: version, type, TTL and the clock in eight bytes, a flag byte with bit 0 for a recipient
   and bit 1 for a signature, the payload length, the ids, the payload, and after it the signature.
   */
  lemma WireLayout(d: Draft, millis: nat, filler: nat -> byte)
    requires Create(d, millis, filler).Some?
    ensures
      var data := Create(d, millis, filler).value;
      var addressed := d.recipient.Some? || !(5 <= d.kind <= 7);
      var start := if addressed then 30 else 22;
      && |data| >= start + |d.payload| + |d.signature|
      && data[0] == 1 && data[1] == d.kind && data[2] == 7 && FromBigEndian(data[3..11]) == millis
      && data[11] == (if addressed then 1 else 0) + (if d.signature != [] then 2 else 0)
      && FromBigEndian(data[12..14]) == |d.payload| && data[14..22] == Id8(d.sender)
      && data[start..start + |d.payload|] == d.payload
      && data[start + |d.payload|..start + |d.payload| + |d.signature|] == d.signature
  {
    var tail := Padding(|Unpadded(d, millis)|, filler);
    Layout(d, millis, tail);
    TailLayout(d, millis, tail);
    U16RoundTrip(|d.payload|);
    ClockRead(millis);
  }

  lemma ClockRead(millis: nat)
    requires millis < U64_LIMIT
    ensures FromBigEndian(BigEndian(millis, 8)) == millis
  {
    BigEndianRoundTrip(millis, 8);
    Power256Of8();
  }

  lemma TailLayout(d: Draft, millis: nat, tail: Bytes)
    ensures
      var data := Unpadded(d, millis) + tail;
      var end := (if HasRecipient(d) then 30 else 22) + |d.payload|;
      |data| >= end + |d.signature| && data[end..end + |d.signature|] == d.signature && data[3..11] == BigEndian(millis, 8)
  {
    var h := Header(d, millis);
    var data := Unpadded(d, millis) + tail;
    assert data[..14] == h;
    assert h[3..11] == BigEndian(millis, 8);
    assert data[3..11] == data[..14][3..11];
  }

  // ----- Truncated packets -----

  /** Where the payload starts, and the size that the header of a packet announces; the flags are at offset 11. */
  function PayloadStart(data: Bytes): nat
    requires |data| >= HEADER_SIZE
  {
    HEADER_SIZE + ID_SIZE + if data[11] % 2 == 1 then ID_SIZE else 0
  }

  function AnnouncedLength(data: Bytes): nat
    requires |data| >= HEADER_SIZE
  {
    FromBigEndian(data[12..14])
  }

  /** The parser takes exactly 21 bytes or more of a known version and type, unless a compressed payload does not inflate. */
  lemma ParseAccepts(data: Bytes, inflate: Bytes -> Option<Bytes>)
    ensures Parse(data, inflate).Ok? <==>
      && |data| >= 21 && data[0] == 1 && KnownType(data[1])
      && (data[11] / 4 % 2 == 1 ==>
            inflate(Slice(data, PayloadStart(data), PayloadStart(data) + AnnouncedLength(data))).Some?)
  {
  }

  /**
   A packet that parses was read from whole fields if and only if it has the size its header announces: the sender field
   has its eight bytes from 22 bytes on, a recipient field from 30 on, and a payload that is not empty from start plus
   length on. Anything shorter is accepted all the same.
   */
  lemma TruncationAccepted(data: Bytes, inflate: Bytes -> Option<Bytes>)
    requires Parse(data, inflate).Ok?
    ensures
      var start, length := PayloadStart(data), AnnouncedLength(data);
      var sender, recipient, payload := Slice(data, 14, 22), Slice(data, 22, 30), Slice(data, start, start + length);
      var p := Parse(data, inflate).value;
      && p.sender == StripZeros(sender) && p.recipient == (if data[11] % 2 == 1 then Some(StripZeros(recipient)) else None)
      && (|sender| == ID_SIZE <==> |data| >= 22)
      && (data[11] % 2 == 1 ==> (|recipient| == ID_SIZE <==> |data| >= 30))
      && (|payload| == length <==> length == 0 || |data| >= start + length)
      && (data[11] / 4 % 2 == 0 ==> (|p.payload| == length <==> length == 0 || |data| >= start + length))
      && (|data| < 22 ==> |p.sender| <= 7)
  {
    StripShortens(Slice(data, 14, 22));
  }

  /** A packet cut off inside its ids parses as if the missing bytes were zeros. */
  lemma MissingBytesReadAsZeros(data: Bytes, inflate: Bytes -> Option<Bytes>)
    requires 21 <= |data| < PayloadStart(data)
    ensures Parse(data, inflate) == Parse(data + Zeros(PayloadStart(data) - |data|), inflate)
  {
    var start := PayloadStart(data);
    var n := start - |data|;
    var padded := data + Zeros(n);
    assert padded[12..14] == data[12..14] && padded[11] == data[11];
    var length := AnnouncedLength(data);
    assert |padded| == start && padded[start..start] == [];
    assert Slice(padded, start, start + length) == [];
    assert Slice(data, start, start + length) == [];
    FieldPadded(data, n, 14, 22);
    if start == 30 {
      FieldPadded(data, n, 22, 30);
    }
  }

  lemma FieldPadded(data: Bytes, n: nat, lo: nat, hi: nat)
    requires lo <= hi <= |data| + n
    ensures StripZeros(Slice(data + Zeros(n), lo, hi)) == StripZeros(Slice(data, lo, hi))
  {
    var padded := data + Zeros(n);
    if hi <= |data| {
      assert padded[lo..hi] == data[lo..hi];
    } else if lo <= |data| {
      assert padded[lo..hi] == data[lo..] + Zeros(hi - |data|) && data[lo..|data|] == data[lo..];
      StripPadding(data[lo..], hi - |data|);
    } else {
      assert padded[lo..hi] == [] + Zeros(hi - lo);
      StripPadding([], hi - lo);
    }
  }

  // ----- Padding -----

  /** The unpadded sizes that get padded. */
  predicate GetsPadded(n: nat) {
    22 <= n <= 240 || 257 <= n <= 496 || 769 <= n <= 1008 || 1793 <= n <= 2032
  }

  function UnpadPacket(data: Bytes): Bytes {
    if data == [] then data
    else
      var p := data[|data| - 1];
      if p <= 0 || p > |data| then data else data[..|data| - p]
  }

  /** Unpadding takes off exactly what the last byte says, if that is between one and everything there is. */
  lemma UnpadRemoves(s: Bytes, tail: Bytes)
    requires tail != []
    ensures tail[|tail| - 1] == |tail| ==> UnpadPacket(s + tail) == s
    ensures tail[|tail| - 1] == 0 || tail[|tail| - 1] > |s| + |tail| ==> UnpadPacket(s + tail) == s + tail
  {
    var data := s + tail;
    assert data[|data| - 1] == tail[|tail| - 1] && data[..|s|] == s;
  }

  /** Padded packets have a block size and unpad to what was padded; the others are left as they are. */
  lemma PaddingArithmetic(d: Draft, millis: nat, filler: nat -> byte)
    requires Create(d, millis, filler).Some?
    ensures
      var u := Unpadded(d, millis);
      var data := Create(d, millis, filler).value;
      && |u| >= 22
      && (GetsPadded(|u|) ==> |data| in {256, 512, 1024, 2048} && |data| > |u| && UnpadPacket(data) == u)
      && (!GetsPadded(|u|) ==> data == u)
  {
    var u := Unpadded(d, millis);
    var tail := Padding(|u|, filler);
    var data := u + tail;
    assert tail == [] ==> data == u;
    if tail != [] {
      assert data[|data| - 1] == tail[|tail| - 1] == |tail|;
      assert data[..|data| - |tail|] == u;
    }
  }
}
