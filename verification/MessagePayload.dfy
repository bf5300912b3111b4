/** The chat message payload of `bitchat/protocol.py`. Strings are byte strings with a validity test. */
module MessagePayload {
  import opened Outcomes
  import opened Octets

  /** UTF-8: which byte strings decode, and what decoding with errors ignored keeps of the others. */
  datatype Text = Text(valid: Bytes -> bool, lossy: Bytes -> Bytes)

  ghost predicate Lawful(text: Text) {
    forall b :: text.valid(b) ==> text.lossy(b) == b
  }

  /** What the sender supplies; an empty channel or peer id is falsy and left out. */
  datatype Draft = Draft(
    isPrivate: bool, sender: Bytes, content: Bytes, channel: Bytes, peerId: Bytes, isEncrypted: bool, encrypted: Bytes)

  datatype Message = Message(
    id: Bytes, content: Bytes, channel: Option<Bytes>, isEncrypted: bool, encrypted: Option<Bytes>)

  const PRIVATE: byte := 0x02
  const HAS_PEER_ID: byte := 0x10
  const HAS_CHANNEL: byte := 0x40
  const ENCRYPTED: byte := 0x80

  function Flags(d: Draft): byte {
    (if d.isPrivate then PRIVATE else 0) + (if d.peerId != [] then HAS_PEER_ID else 0)
    + (if d.channel != [] then HAS_CHANNEL else 0) + (if d.isEncrypted then ENCRYPTED else 0)
  }

  /** The content field: the ciphertext of an encrypted message, unless that is empty. */
  function Body(d: Draft): Bytes {
    if d.isEncrypted && d.encrypted != [] then d.encrypted else d.content
  }

  predicate Fits(d: Draft, id: Bytes, millis: nat) {
    && |id| < 256 && |d.sender| < 256 && |d.peerId| < 256 && |d.channel| < 256
    && |Body(d)| < U16_LIMIT && millis < U64_LIMIT
  }

  /** A field that is left out when empty. */
  function Optional(s: Bytes): Bytes
    requires |s| < 256
  {
    if s != [] then Short(s) else []
  }

  function Tail(d: Draft): Bytes
    requires |d.peerId| < 256 && |d.channel| < 256
  {
    Optional(d.peerId) + Optional(d.channel)
  }

  /** `create_bitchat_message_payload_full`; None where a length does not fit its field. */
  function Create(d: Draft, id: Bytes, millis: nat): Option<Bytes> {
    if !Fits(d, id, millis) then None
    else
      Some([Flags(d)] + BigEndian(millis, 8) + Short(id) + Short(d.sender)
           + BigEndian(|Body(d)|, 2) + Body(d) + Tail(d))
  }

  /** Reading a length-prefixed field: the length must be there, the bytes are whatever the slice finds. */
  function ReadClamped(data: Bytes, at: nat): Option<(Bytes, nat)> {
    if at >= |data| then None
    else var n := data[at]; Some((Slice(data, at + 1, at + 1 + n), at + 1 + n))
  }

  predicate PeerIdFlag(flags: byte) {
    flags / HAS_PEER_ID % 2 == 1
  }

  predicate ChannelFlag(flags: byte) {
    flags / HAS_CHANNEL % 2 == 1
  }

  predicate EncryptedFlag(flags: byte) {
    flags / ENCRYPTED % 2 == 1
  }

  /** The channel, after the peer id that is skipped. */
  function ReadTail(data: Bytes, at: nat, hasPeer: bool, hasChannel: bool, text: Text): Option<Option<Bytes>> {
    var peer := if hasPeer then ReadClamped(data, at) else Some(([], at));
    if peer.None? then None
    else if !hasChannel then Some(None)
    else
      var channel := ReadClamped(data, peer.value.1);
      if channel.None? || !text.valid(channel.value.0) then None else Some(Some(channel.value.0))
  }

  /** `parse_bitchat_message_payload`; None where it raises. */
  function Parse(data: Bytes, text: Text): Option<Message> {
    if data == [] then None
    else
      var flags := data[0];
      var id := ReadClamped(data, 9);
      if id.None? || !text.valid(id.value.0) then None
      else
        var sender := ReadClamped(data, id.value.1);
        if sender.None? || !text.valid(sender.value.0) || sender.value.1 + 2 > |data| then None
        else
          var at := sender.value.1;
          var n := FromBigEndian(data[at..at + 2]);
          var body := Slice(data, at + 2, at + 2 + n);
          var channel := ReadTail(data, at + 2 + n, PeerIdFlag(flags), ChannelFlag(flags), text);
          if channel.None? then None
          else if EncryptedFlag(flags) then Some(Message(id.value.0, [], channel.value, true, Some(body)))
          else Some(Message(id.value.0, text.lossy(body), channel.value, false, None))
  }

  // ----- Round trip -----

  /** A field that is there in full is read in full. */
  lemma ReadFull(before: Bytes, s: Bytes, after: Bytes)
    requires |s| < 256
    ensures ReadClamped(before + Short(s) + after, |before|) == Some((s, |before + Short(s)|))
  {
    ReadShortAt(before, s, after);
  }

  /** The flag byte gives each flag back. */
  lemma FlagsDecode(d: Draft)
    ensures PeerIdFlag(Flags(d)) <==> d.peerId != []
    ensures ChannelFlag(Flags(d)) <==> d.channel != []
    ensures EncryptedFlag(Flags(d)) <==> d.isEncrypted
  {
  }

  lemma ReadTailAt(before: Bytes, d: Draft, text: Text)
    requires |d.peerId| < 256 && |d.channel| < 256 && text.valid(d.channel)
    ensures ReadTail(before + Tail(d), |before|, d.peerId != [], d.channel != [], text)
         == Some(if d.channel != [] then Some(d.channel) else None)
  {
    var middle := before + Optional(d.peerId);
    assert before + Tail(d) == middle + Optional(d.channel);
    ReadOptional(before, d.peerId, Optional(d.channel));
    ReadOptional(middle, d.channel, []);
    assert middle + Optional(d.channel) + [] == middle + Optional(d.channel);
  }

  lemma ReadOptional(before: Bytes, s: Bytes, after: Bytes)
    requires |s| < 256
    ensures s != [] ==> ReadClamped(before + Optional(s) + after, |before|) == Some((s, |before + Optional(s)|))
    ensures s == [] ==> |before + Optional(s)| == |before|
  {
    if s != [] {
      ReadFull(before, s, after);
    }
  }

  /** What parsing returns for a draft. */
  function Expected(d: Draft, id: Bytes): Message {
    Message(id, if d.isEncrypted then [] else d.content, if d.channel != [] then Some(d.channel) else None,
            d.isEncrypted,
            if !d.isEncrypted then None else if d.encrypted != [] then Some(d.encrypted) else Some(d.content))
  }

  /**
   Round trip for every combination of optional fields: id, content or ciphertext, channel and encryption flag come
   back, with the sender's peer id skipped over correctly.
   */
  lemma PayloadRoundTrip(d: Draft, id: Bytes, millis: nat, text: Text)
    requires Lawful(text) && Create(d, id, millis).Some?
    requires text.valid(id) && text.valid(d.sender) && text.valid(d.content) && text.valid(d.channel)
    ensures Parse(Create(d, id, millis).value, text) == Some(Expected(d, id))
  {
    ParseCreated(d, id, millis, text);
    FlagsDecode(d);
  }

  lemma ParseCreated(d: Draft, id: Bytes, millis: nat, text: Text)
    requires Create(d, id, millis).Some? && text.valid(id) && text.valid(d.sender) && text.valid(d.channel)
    ensures
      var channel := if d.channel != [] then Some(d.channel) else None;
      Parse(Create(d, id, millis).value, text) ==
        Some(if EncryptedFlag(Flags(d)) then Message(id, [], channel, true, Some(Body(d)))
             else Message(id, text.lossy(Body(d)), channel, false, None))
  {
    var b0, size := [Flags(d)] + BigEndian(millis, 8), BigEndian(|Body(d)|, 2);
    U16RoundTrip(|Body(d)|);
    FlagsDecode(d);
    ReadTailAt(b0 + Short(id) + Short(d.sender) + size + Body(d), d, text);
    ParseLayout(b0, id, d.sender, size, Body(d), Tail(d), text, if d.channel != [] then Some(d.channel) else None);
  }

  lemma ParseLayout(b0: Bytes, id: Bytes, sender: Bytes, size: Bytes, body: Bytes, tail: Bytes,
                    text: Text, channel: Option<Bytes>)
    requires |b0| == 9 && |size| == 2 && |id| < 256 && |sender| < 256 && FromBigEndian(size) == |body|
    requires text.valid(id) && text.valid(sender)
    requires
      var front := b0 + Short(id) + Short(sender) + size + body;
      ReadTail(front + tail, |front|, PeerIdFlag(b0[0]), ChannelFlag(b0[0]), text) == Some(channel)
    ensures Parse(b0 + Short(id) + Short(sender) + size + body + tail, text) ==
            Some(if EncryptedFlag(b0[0]) then Message(id, [], channel, true, Some(body))
                 else Message(id, text.lossy(body), channel, false, None))
  {
    var front := b0 + Short(id) + Short(sender) + size + body;
    var data, i, j := front + tail, 10 + |id|, 11 + |id| + |sender|;
    Layout(b0, id, sender, size, body, tail);
    ParseFields(data, text, b0[0], id, i, sender, j, body, |front|, channel);
  }

  /** Where the fields lie. */
  lemma Layout(b0: Bytes, id: Bytes, sender: Bytes, size: Bytes, body: Bytes, tail: Bytes)
    requires |b0| == 9 && |size| == 2 && |id| < 256 && |sender| < 256 && FromBigEndian(size) == |body|
    ensures
      var front := b0 + Short(id) + Short(sender) + size + body;
      var data, i, j := front + tail, 10 + |id|, 11 + |id| + |sender|;
      && |data| >= 9 && data[..9] == b0 && |front| == j + 2 + |body| <= |data|
      && ReadClamped(data, 9) == Some((id, i)) && ReadClamped(data, i) == Some((sender, j))
      && FromBigEndian(data[j..j + 2]) == |body| && data[j + 2..|front|] == body
  {
    var b2 := b0 + Short(id) + Short(sender);
    BodyAt(b2, size, body, tail);
    assert (b2 + size + body + tail)[..9] == b0;
    ReadTwo(b0, id, sender, size + body + tail);
    assert b2 + size + body + tail == b2 + (size + body + tail);
  }

  /** The parser's result, from what its reads return. */
  lemma ParseFields(data: Bytes, text: Text, flags: byte, id: Bytes, i: nat, sender: Bytes, j: nat, body: Bytes, end: nat,
                    channel: Option<Bytes>)
    requires data != [] && data[0] == flags && ReadClamped(data, 9) == Some((id, i)) && ReadClamped(data, i) == Some((sender, j))
    requires text.valid(id) && text.valid(sender)
    requires end == j + 2 + |body| <= |data| && FromBigEndian(data[j..j + 2]) == |body| && data[j + 2..end] == body
    requires ReadTail(data, end, PeerIdFlag(flags), ChannelFlag(flags), text) == Some(channel)
    ensures Parse(data, text) ==
            Some(if EncryptedFlag(flags) then Message(id, [], channel, true, Some(body))
                 else Message(id, text.lossy(body), channel, false, None))
  {
    assert Slice(data, j + 2, end) == body;
  }

  lemma ReadTwo(before: Bytes, x: Bytes, y: Bytes, after: Bytes)
    requires |x| < 256 && |y| < 256
    ensures
      var data := before + Short(x) + Short(y) + after;
      var i, j := |before + Short(x)|, |before + Short(x) + Short(y)|;
      ReadClamped(data, |before|) == Some((x, i)) && ReadClamped(data, i) == Some((y, j))
  {
    assert before + Short(x) + Short(y) + after == before + Short(x) + (Short(y) + after);
    ReadFull(before, x, Short(y) + after);
    ReadFull(before + Short(x), y, after);
  }

  lemma BodyAt(before: Bytes, size: Bytes, body: Bytes, after: Bytes)
    requires |size| == 2
    ensures
      var data, at := before + size + body + after, |before|;
      && at + 2 + |body| <= |data| && data[at..at + 2] == size && data[at + 2..at + 2 + |body|] == body
  {
  }

  // ----- Field by field -----

  /** Creation fails exactly when a length or the clock does not fit its field. */
  lemma CreateFails(d: Draft, id: Bytes, millis: nat)
    ensures Create(d, id, millis).None? <==>
      || |id| > 255 || |d.sender| > 255 || |d.peerId| > 255 || |d.channel| > 255 || millis >= U64_LIMIT
      || (if d.isEncrypted && d.encrypted != [] then |d.encrypted| else |d.content|) > 65535
  {
  }

  /** Where the fields of a draft end: the sender's name, the content, and the peer id. */
  function SenderEnd(d: Draft, id: Bytes): nat {
    11 + |id| + |d.sender|
  }

  function BodyEnd(d: Draft, id: Bytes): nat {
    SenderEnd(d, id) + 2 + |Body(d)|
  }

  function PeerEnd(d: Draft, id: Bytes): nat {
    BodyEnd(d, id) + if d.peerId != [] then 1 + |d.peerId| else 0
  }

  /** What is on the wire by offset, with the fields that the parser skips: flags, clock, sender and peer id. */
  lemma PayloadLayout(d: Draft, id: Bytes, millis: nat)
    requires Create(d, id, millis).Some?
    ensures
      var data, i, j, k := Create(d, id, millis).value, 10 + |id|, SenderEnd(d, id), BodyEnd(d, id);
      && |data| >= k && data[0] == (if d.isPrivate then 0x02 else 0) + (if d.peerId != [] then 0x10 else 0)
           + (if d.channel != [] then 0x40 else 0) + (if d.isEncrypted then 0x80 else 0)
      && FromBigEndian(data[1..9]) == millis
      && ReadClamped(data, 9) == Some((id, i)) && ReadClamped(data, i) == Some((d.sender, j))
      && FromBigEndian(data[j..j + 2]) == |Body(d)| && data[j + 2..k] == Body(d)
      && (d.peerId != [] ==> ReadClamped(data, k) == Some((d.peerId, PeerEnd(d, id))))
      && (d.channel != [] ==> ReadClamped(data, PeerEnd(d, id)) == Some((d.channel, PeerEnd(d, id) + 1 + |d.channel|)))
      && |data| == PeerEnd(d, id) + if d.channel != [] then 1 + |d.channel| else 0
  {
    var front := Front(d, id, millis);
    FrontLayout(d, id, millis);
    TailAt(front, d);
  }

  function Front(d: Draft, id: Bytes, millis: nat): Bytes
    requires Create(d, id, millis).Some?
  {
    [Flags(d)] + BigEndian(millis, 8) + Short(id) + Short(d.sender) + BigEndian(|Body(d)|, 2) + Body(d)
  }

  lemma FrontLayout(d: Draft, id: Bytes, millis: nat)
    requires Create(d, id, millis).Some?
    ensures
      var data, i, j, k := Front(d, id, millis) + Tail(d), 10 + |id|, SenderEnd(d, id), BodyEnd(d, id);
      && |Front(d, id, millis)| == k <= |data| && data[0] == Flags(d) && FromBigEndian(data[1..9]) == millis
      && ReadClamped(data, 9) == Some((id, i)) && ReadClamped(data, i) == Some((d.sender, j))
      && FromBigEndian(data[j..j + 2]) == |Body(d)| && data[j + 2..k] == Body(d)
  {
    var b0, size := [Flags(d)] + BigEndian(millis, 8), BigEndian(|Body(d)|, 2);
    U16RoundTrip(|Body(d)|);
    Layout(b0, id, d.sender, size, Body(d), Tail(d));
    ClockAt(Flags(d), millis, Front(d, id, millis) + Tail(d));
  }

  lemma ClockAt(flags: byte, millis: nat, data: Bytes)
    requires |data| >= 9 && data[..9] == [flags] + BigEndian(millis, 8) && millis < U64_LIMIT
    ensures data[0] == flags && FromBigEndian(data[1..9]) == millis
  {
    assert data[0] == data[..9][0];
    assert data[1..9] == data[..9][1..] == BigEndian(millis, 8);
    BigEndianRoundTrip(millis, 8);
    Power256Of8();
  }

  lemma TailAt(front: Bytes, d: Draft)
    requires |d.peerId| < 256 && |d.channel| < 256
    ensures
      var data, k := front + Tail(d), |front| + if d.peerId != [] then 1 + |d.peerId| else 0;
      && (d.peerId != [] ==> ReadClamped(data, |front|) == Some((d.peerId, k)))
      && (d.channel != [] ==> ReadClamped(data, k) == Some((d.channel, k + 1 + |d.channel|)))
      && |data| == k + if d.channel != [] then 1 + |d.channel| else 0
  {
    var middle := front + Optional(d.peerId);
    assert front + Tail(d) == middle + Optional(d.channel);
    ReadOptional(front, d.peerId, Optional(d.channel));
    ReadOptional(middle, d.channel, []);
    assert middle + Optional(d.channel) + [] == middle + Optional(d.channel);
  }

  // ----- Truncated payloads -----

  /** A field in a payload that is cut off: gone, shortened or whole. */
  lemma ReadCut(data: Bytes, n: nat, at: nat, s: Bytes, end: nat)
    requires n <= |data| && ReadClamped(data, at) == Some((s, end)) && end == at + 1 + |s|
    ensures
      var r := ReadClamped(data[..n], at);
      && (at >= n ==> r.None?)
      && (at < n ==> r.Some? && r.value.1 == end && r.value.0 == if end <= n then s else s[..n - at - 1])
  {
    if at < n {
      assert data[..n][at] == data[at];
      if end <= n {
        assert Slice(data[..n], at + 1, end) == Slice(data, at + 1, end);
      } else {
        assert data[..n][at + 1..n] == data[at + 1..n];
        assert s == data[at + 1..end] && s[..n - at - 1] == data[at + 1..n];
      }
    }
  }

  /** The channel field at `k` of a payload that is cut off after `n` bytes can be read. */
  predicate ChannelReadable(channel: Bytes, k: nat, n: nat, text: Text) {
    n > k && text.valid(if |channel| <= n - k - 1 then channel else channel[..n - k - 1])
  }

  /** The optional fields of a payload that is cut off. */
  lemma CutTail(data: Bytes, n: nat, k: nat, peer: Bytes, k2: nat, channel: Bytes, text: Text)
    requires n <= |data| && k2 == k + if peer != [] then 1 + |peer| else 0
    requires peer != [] ==> ReadClamped(data, k) == Some((peer, k2))
    requires channel != [] ==> ReadClamped(data, k2) == Some((channel, k2 + 1 + |channel|))
    ensures ReadTail(data[..n], k, peer != [], channel != [], text).Some? <==>
      (peer != [] ==> n > k) && (channel != [] ==> ChannelReadable(channel, k2, n, text))
  {
    if peer != [] {
      ReadCut(data, n, k, peer, k2);
    }
    if channel != [] {
      ReadCut(data, n, k2, channel, k2 + 1 + |channel|);
    }
  }

  /** The fields before them. */
  lemma CutFront(data: Bytes, n: nat, id: Bytes, sender: Bytes, size: nat, text: Text)
    requires n <= |data| && text.valid(id) && text.valid(sender)
    requires ReadClamped(data, 9) == Some((id, 10 + |id|))
    requires ReadClamped(data, 10 + |id|) == Some((sender, 11 + |id| + |sender|))
    requires 13 + |id| + |sender| <= |data|
    requires FromBigEndian(data[11 + |id| + |sender|..13 + |id| + |sender|]) == size
    ensures
      var k := 13 + |id| + |sender| + size;
      Parse(data[..n], text).Some? <==>
        && n >= 13 + |id| + |sender|
        && ReadTail(data[..n], k, PeerIdFlag(data[0]), ChannelFlag(data[0]), text).Some?
  {
    var i, j := 10 + |id|, 11 + |id| + |sender|;
    ReadCut(data, n, 9, id, i);
    ReadCut(data, n, i, sender, j);
    if n >= j + 2 {
      SliceOfPrefix(data, n, j, j + 2);
      ParsesBy(data[..n], text, id, i, sender, j, size);
    }
  }

  lemma SliceOfPrefix(data: Bytes, n: nat, a: nat, b: nat)
    requires a < b <= n <= |data|
    ensures data[..n][a..b] == data[a..b] && data[..n][0] == data[0]
  {
  }

  /** With id and sender read, it is up to the optional fields. */
  lemma ParsesBy(data: Bytes, text: Text, id: Bytes, i: nat, sender: Bytes, j: nat, size: nat)
    requires ReadClamped(data, 9) == Some((id, i)) && ReadClamped(data, i) == Some((sender, j))
    requires text.valid(id) && text.valid(sender) && j + 2 <= |data| && FromBigEndian(data[j..j + 2]) == size
    ensures Parse(data, text).Some? <==>
            ReadTail(data, j + 2 + size, PeerIdFlag(data[0]), ChannelFlag(data[0]), text).Some?
  {
  }

  /**
   A payload cut off after `n` bytes is accepted if and only if the content length is there, the length byte of a peer id
   that is announced, and that of a channel, whose bytes so far decode: content, peer id and channel may be cut short.
   */
  lemma CutAccepted(d: Draft, id: Bytes, millis: nat, text: Text, n: nat)
    requires Create(d, id, millis).Some? && n <= |Create(d, id, millis).value|
    requires text.valid(id) && text.valid(d.sender)
    ensures Parse(Create(d, id, millis).value[..n], text).Some? <==>
      && n >= SenderEnd(d, id) + 2 && (d.peerId != [] ==> n > BodyEnd(d, id))
      && (d.channel != [] ==> ChannelReadable(d.channel, PeerEnd(d, id), n, text))
  {
    var data := Create(d, id, millis).value;
    PayloadLayout(d, id, millis);
    FlagBits(d, id, millis);
    CutBoth(data, n, id, d.sender, |Body(d)|, d.peerId, PeerEnd(d, id), d.channel, text);
  }

  lemma CutBoth(data: Bytes, n: nat, id: Bytes, sender: Bytes, size: nat, peer: Bytes, k2: nat, channel: Bytes, text: Text)
    requires n <= |data| && text.valid(id) && text.valid(sender) && 13 + |id| + |sender| <= |data|
    requires ReadClamped(data, 9) == Some((id, 10 + |id|))
    requires ReadClamped(data, 10 + |id|) == Some((sender, 11 + |id| + |sender|))
    requires FromBigEndian(data[11 + |id| + |sender|..13 + |id| + |sender|]) == size
    requires (PeerIdFlag(data[0]) <==> peer != []) && (ChannelFlag(data[0]) <==> channel != [])
    requires k2 == 13 + |id| + |sender| + size + if peer != [] then 1 + |peer| else 0
    requires peer != [] ==> ReadClamped(data, 13 + |id| + |sender| + size) == Some((peer, k2))
    requires channel != [] ==> ReadClamped(data, k2) == Some((channel, k2 + 1 + |channel|))
    ensures Parse(data[..n], text).Some? <==>
      && n >= 13 + |id| + |sender| && (peer != [] ==> n > 13 + |id| + |sender| + size)
      && (channel != [] ==> ChannelReadable(channel, k2, n, text))
  {
    CutFront(data, n, id, sender, size, text);
    CutTail(data, n, 13 + |id| + |sender| + size, peer, k2, channel, text);
  }

  lemma FlagBits(d: Draft, id: Bytes, millis: nat)
    requires Create(d, id, millis).Some?
    ensures
      var data := Create(d, id, millis).value;
      data != [] && (PeerIdFlag(data[0]) <==> d.peerId != []) && (ChannelFlag(data[0]) <==> d.channel != [])
  {
    FlagsDecode(d);
    assert Create(d, id, millis).value[0] == Flags(d);
  }
}
