/** Length-prefixed framing of packets on a TCP stream (`daemon/transport.py`). */
module Framing {
  import opened Outcomes
  import opened Octets

  const MAX_PACKET_SIZE: nat := 10 * 1024 * 1024

  datatype SendError = PacketTooLarge | LengthUnpackable

  /** `send_packet`: the 16-bit length field, not the 10 MB check, is what bounds a frame. */
  function Frame(packet: Bytes): Result<Bytes, SendError> {
    if |packet| > MAX_PACKET_SIZE then Err(PacketTooLarge)
    else if |packet| >= U16_LIMIT then Err(LengthUnpackable)
    else Ok(BigEndian(|packet|, 2) + packet)
  }

  /** Exactly packets up to 65535 bytes can be framed, behind their length in two bytes, most significant first. */
  lemma FrameBound(packet: Bytes)
    ensures Frame(packet).Ok? <==> |packet| <= 65535
    ensures Frame(packet).Ok? ==> Frame(packet).value == [|packet| / 256, |packet| % 256] + packet
  {
    if Frame(packet).Ok? {
      assert BigEndian(|packet|, 2) == BigEndian(|packet| / 256, 1) + [|packet| % 256];
      assert BigEndian(|packet| / 256, 1) == [] + [|packet| / 256 % 256];
    }
  }

  ghost predicate Sendable(packets: seq<Bytes>) {
    forall i :: 0 <= i < |packets| ==> Frame(packets[i]).Ok?
  }

  /** The bytes on the wire after sending some packets. */
  ghost function Stream(packets: seq<Bytes>): Bytes
    requires Sendable(packets)
  {
    if packets == [] then [] else Frame(packets[0]).value + Stream(packets[1..])
  }

  /** What a complete read of a byte stream yields: every whole frame from the front. */
  function Unframe(s: Bytes): seq<Bytes>
    decreases |s|
  {
    if |s| < 2 then []
    else
      var n := FromBigEndian(s[..2]);
      if n > MAX_PACKET_SIZE || |s| < 2 + n then [] else [s[2..2 + n]] + Unframe(s[2 + n..])
  }

  lemma UnframeAt(stream: Bytes, at: nat)
    requires at + 2 <= |stream|
    ensures
      var n := FromBigEndian(stream[at..at + 2]);
      Unframe(stream[at..]) ==
      if n > MAX_PACKET_SIZE || |stream| - at - 2 < n then []
      else [stream[at + 2..at + 2 + n]] + Unframe(stream[at + 2 + n..])
  {
    var s, n := stream[at..], FromBigEndian(stream[at..at + 2]);
    assert s[..2] == stream[at..at + 2];
    if |stream| - at - 2 >= n {
      assert s[2..2 + n] == stream[at + 2..at + 2 + n] && s[2 + n..] == stream[at + 2 + n..];
    }
  }

  lemma AppendFirst(a: seq<Bytes>, x: Bytes, b: seq<Bytes>)
    ensures a + ([x] + b) == (a + [x]) + b
  {
  }

  /** The read loop: exactly two bytes, then exactly the announced number, until the stream ends. */
  method ReadLoop(stream: Bytes) returns (packets: seq<Bytes>)
    ensures packets == Unframe(stream)
  {
    packets := [];
    var at := 0;
    while true
      invariant 0 <= at <= |stream|
      invariant packets + Unframe(stream[at..]) == Unframe(stream)
      decreases |stream| - at
    {
      if |stream| - at < 2 {
        break;
      }
      var n := FromBigEndian(stream[at..at + 2]);
      UnframeAt(stream, at);
      if n > MAX_PACKET_SIZE || |stream| - at - 2 < n {
        break;
      }
      AppendFirst(packets, stream[at + 2..at + 2 + n], Unframe(stream[at + 2 + n..]));
      packets := packets + [stream[at + 2..at + 2 + n]];
      at := at + 2 + n;
    }
  }

  lemma UnframeFrame(packet: Bytes, rest: Bytes)
    requires Frame(packet).Ok?
    ensures Unframe(Frame(packet).value + rest) == [packet] + Unframe(rest)
  {
    var s := Frame(packet).value + rest;
    U16RoundTrip(|packet|);
    assert s[..2] == BigEndian(|packet|, 2) && s[2..2 + |packet|] == packet && s[2 + |packet|..] == rest;
  }

  /** The number of frames that lie wholly within the first `n` bytes of the stream. */
  ghost function WholeFrames(packets: seq<Bytes>, n: nat): nat {
    if packets == [] || n < 2 + |packets[0]| then 0 else 1 + WholeFrames(packets[1..], n - 2 - |packets[0]|)
  }

  lemma PrefixOfConcat(a: Bytes, b: Bytes, n: nat)
    requires |a| <= n <= |a| + |b|
    ensures (a + b)[..n] == a + b[..n - |a|]
  {
  }

  lemma OneFrameMore(p: Bytes, rest: seq<Bytes>, n: nat)
    requires Frame(p).Ok? && Sendable(rest) && |Frame(p).value| <= n <= |Frame(p).value| + |Stream(rest)|
    ensures Unframe((Frame(p).value + Stream(rest))[..n]) == [p] + Unframe(Stream(rest)[..n - |Frame(p).value|])
  {
    PrefixOfConcat(Frame(p).value, Stream(rest), n);
    UnframeFrame(p, Stream(rest)[..n - |Frame(p).value|]);
  }

  lemma TakeFirst(packets: seq<Bytes>, m: nat)
    requires packets != [] && m <= |packets| - 1
    ensures packets[..m + 1] == [packets[0]] + packets[1..][..m]
  {
  }

  /** On any prefix of the stream the reader emits exactly the packets whose frames are complete, and no partial packet. */
  lemma {:induction false} PrefixRead(packets: seq<Bytes>, n: nat)
    requires Sendable(packets) && n <= |Stream(packets)|
    ensures WholeFrames(packets, n) <= |packets|
    ensures Unframe(Stream(packets)[..n]) == packets[..WholeFrames(packets, n)]
    decreases |packets|
  {
    if packets != [] {
      var p, rest := packets[0], packets[1..];
      var frame := Frame(p).value;
      if n < 2 + |p| {
        PartialFrame(p, Stream(rest), n);
      } else {
        PrefixRead(rest, n - |frame|);
        OneFrameMore(p, rest, n);
        TakeFirst(packets, WholeFrames(rest, n - |frame|));
      }
    }
  }

  lemma PartialFrame(packet: Bytes, rest: Bytes, n: nat)
    requires Frame(packet).Ok? && n < 2 + |packet|
    ensures n <= |Frame(packet).value + rest| && Unframe((Frame(packet).value + rest)[..n]) == []
  {
    var s := (Frame(packet).value + rest)[..n];
    if n >= 2 {
      assert s[..2] == BigEndian(|packet|, 2);
      U16RoundTrip(|packet|);
    }
  }

  /** Reading the whole stream gives back the list of packets. */
  lemma FramingRoundTrip(packets: seq<Bytes>)
    requires Sendable(packets)
    ensures Unframe(Stream(packets)) == packets
  {
    PrefixRead(packets, |Stream(packets)|);
    assert Stream(packets)[..|Stream(packets)|] == Stream(packets);
    AllWhole(packets);
    assert packets[..|packets|] == packets;
  }

  lemma {:induction false} AllWhole(packets: seq<Bytes>)
    requires Sendable(packets)
    ensures WholeFrames(packets, |Stream(packets)|) == |packets|
    decreases |packets|
  {
    if packets != [] {
      AllWhole(packets[1..]);
    }
  }
}
