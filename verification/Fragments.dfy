/** Fragmentation on the sending side and the fragment collector on the receiving side. */
module Fragments {
  import opened Outcomes
  import opened Octets
  import opened Chunking
  import opened PacketCodec

  const FRAGMENT_SIZE: nat := 150
  const FRAGMENT_OVERHEAD: nat := 13
  const MESSAGE_TYPE: byte := 4
  const FRAGMENT_THRESHOLD: nat := 500
  const PAYLOAD_FRAGMENT_SIZE: nat := 500

  /** One fragment as the collector sees it. */
  datatype Fragment = Fragment(id: Bytes, index: nat, total: nat, data: Bytes)

  predicate ShouldFragment(packet: Bytes) {
    |packet| > FRAGMENT_THRESHOLD
  }

  // ----- Sending -----

  function FragmentPayload(f: Fragment): Bytes {
    f.id + BigEndian(f.index, 2) + BigEndian(f.total, 2) + [MESSAGE_TYPE] + f.data
  }

  /** The receiver's reading of a fragment payload; shorter payloads are ignored. */
  function ReadPayload(payload: Bytes): Option<Fragment> {
    if |payload| < FRAGMENT_OVERHEAD then None
    else Some(Fragment(payload[0..8], FromBigEndian(payload[8..10]), FromBigEndian(payload[10..12]), payload[13..]))
  }

  lemma PayloadRoundTrip(f: Fragment)
    requires |f.id| == 8 && f.index < U16_LIMIT && f.total < U16_LIMIT
    ensures ReadPayload(FragmentPayload(f)) == Some(f)
    ensures
      var p := FragmentPayload(f);
      && |p| == 13 + |f.data| && p[..8] == f.id && FromBigEndian(p[8..10]) == f.index && FromBigEndian(p[10..12]) == f.total
      && p[12] == 4 && p[13..] == f.data
  {
    var p := FragmentPayload(f);
    U16RoundTrip(f.index);
    U16RoundTrip(f.total);
    assert p[0..8] == f.id && p[8..10] == BigEndian(f.index, 2) && p[10..12] == BigEndian(f.total, 2) && p[13..] == f.data;
  }

  function KindAt(i: nat, total: nat): byte {
    if i == 0 then FRAGMENT_START else if i == total - 1 then FRAGMENT_END else FRAGMENT_CONTINUE
  }

  /** The i-th fragment of a packet. */
  function FragmentAt(packet: Bytes, id: Bytes, i: nat): Fragment
    requires i < |Chunks(packet, FRAGMENT_SIZE)|
  {
    var cs := Chunks(packet, FRAGMENT_SIZE);
    Fragment(id, i, |cs|, cs[i])
  }

  function DraftAt(packet: Bytes, id: Bytes, sender: Bytes, i: nat): Draft
    requires i < |Chunks(packet, FRAGMENT_SIZE)|
  {
    Draft(KindAt(i, |Chunks(packet, FRAGMENT_SIZE)|), sender, None, FragmentPayload(FragmentAt(packet, id, i)), [])
  }

  /** A clock reading that fits the timestamp field. */
  type Millis = n: nat | n < U64_LIMIT

  /** What the i-th transmission puts on the wire, given the clock and the random filler at that moment. */
  function WireFragment(packet: Bytes, id: Bytes, sender: Bytes, clock: nat -> Millis, noise: nat -> nat -> byte, i: nat)
    : Option<Bytes>
    requires i < |Chunks(packet, FRAGMENT_SIZE)|
  {
    Create(DraftAt(packet, id, sender, i), clock(i), noise(i))
  }

  /** The sending loop; packing the number of fragments raises when it does not fit sixteen bits. */
  method SendFragments(packet: Bytes, id: Bytes, sender: Bytes, clock: nat -> Millis, noise: nat -> nat -> byte)
      returns (sent: Result<seq<Option<Bytes>>, ()>)
    ensures sent.Err? <==> |Chunks(packet, FRAGMENT_SIZE)| >= U16_LIMIT
    ensures sent.Ok? ==> |sent.value| == |Chunks(packet, FRAGMENT_SIZE)|
    ensures sent.Ok? ==> forall i :: 0 <= i < |sent.value| ==>
                           sent.value[i] == WireFragment(packet, id, sender, clock, noise, i)
  {
    var chunks := ChunkLoop(packet, FRAGMENT_SIZE);
    var total := |chunks|;
    var out := [];
    var index := 0;
    while index < total
      invariant 0 <= index <= total && |out| == index
      invariant index > 0 ==> total < U16_LIMIT
      invariant forall i :: 0 <= i < index ==> out[i] == WireFragment(packet, id, sender, clock, noise, i)
    {
      if total >= U16_LIMIT {
        return Err(());
      }
      var kind := if index == 0 then FRAGMENT_START else if index == total - 1 then FRAGMENT_END else FRAGMENT_CONTINUE;
      var payload := id + BigEndian(index, 2) + BigEndian(total, 2) + [MESSAGE_TYPE] + chunks[index];
      var draft := Draft(kind, sender, None, payload, []);
      assert draft == DraftAt(packet, id, sender, index);
      var one := CreatePacket(draft, clock(index), noise(index));
      out := out + [one];
      index := index + 1;
    }
    sent := Ok(out);
  }

  /**
   Every fragment packet is exactly 256 bytes, never needs fragmenting again, and after up to six relays is read back as
   the fragment that was sent, marked as the first, a middle or the last one, with the type of a message and no recipient.
   */
  lemma FragmentOnTheWire(packet: Bytes, id: Bytes, sender: Bytes, clock: nat -> Millis, noise: nat -> nat -> byte,
                          i: nat, k: nat, inflate: Bytes -> Option<Bytes>)
    requires |id| == 8 && i < |Chunks(packet, FRAGMENT_SIZE)| < U16_LIMIT && k < DEFAULT_TTL
    ensures
      var raw := WireFragment(packet, id, sender, clock, noise, i);
      && raw.Some? && |raw.value| == 256 && !ShouldFragment(raw.value)
      && var got := AfterRelays(raw.value, k);
      && got.Some? && Parse(got.value, inflate).Ok?
      && var p := Parse(got.value, inflate).value;
      && ReadPayload(p.payload) == Some(FragmentAt(packet, id, i)) && |p.payload| > 12 && p.payload[12] == 4
      && p.kind == (if i == 0 then 5 else if i + 1 == |Chunks(packet, FRAGMENT_SIZE)| then 7 else 6)
      && p.recipient.None? && p.ttl == 7 - k
      && 14 <= |p.payload| <= 163 && (i + 1 < |Chunks(packet, FRAGMENT_SIZE)| ==> |p.payload| == 163)
  {
    ChunksRebuild(packet, FRAGMENT_SIZE);
    var d := DraftAt(packet, id, sender, i);
    assert |d.payload| == FRAGMENT_OVERHEAD + |FragmentAt(packet, id, i).data|;
    assert |Unpadded(d, clock(i))| == HEADER_SIZE + ID_SIZE + |d.payload|;
    assert WireFragment(packet, id, sender, clock, noise, i).Some?;
    PacketRoundTrip(d, clock(i), noise(i), k, inflate);
    PayloadRoundTrip(FragmentAt(packet, id, i));
  }

  /** A fragment of the 500-byte splitter, with its message type and the type of what was split. */
  datatype Piece = Piece(kind: byte, originalType: byte, fragment: Fragment)

  /**
   `fragment_payload`: nothing for a payload that fits, else at least two numbered pieces, the first marked START, the last
   END and those between CONTINUE, that join to the payload.
   */
  method FragmentLargePayload(payload: Bytes, originalType: byte, id: Bytes) returns (pieces: seq<Piece>)
    ensures pieces == [] <==> |payload| <= 500
    ensures pieces != [] ==> |pieces| >= 2 && Join(Data(pieces)) == payload
    ensures forall i :: 0 <= i < |pieces| ==>
              var f := pieces[i].fragment;
              f.id == id && f.index == i && f.total == |pieces| && 1 <= |f.data| <= 500
    ensures forall i :: 0 <= i < |pieces| ==>
              && pieces[i].originalType == originalType && (pieces[i].kind == FRAGMENT_START <==> i == 0)
              && (pieces[i].kind == FRAGMENT_END <==> i == |pieces| - 1)
              && (pieces[i].kind == FRAGMENT_CONTINUE <==> 0 < i < |pieces| - 1)
  {
    if |payload| <= PAYLOAD_FRAGMENT_SIZE {
      return [];
    }
    var chunks := ChunkLoop(payload, PAYLOAD_FRAGMENT_SIZE);
    ChunksRebuild(payload, PAYLOAD_FRAGMENT_SIZE);
    assert |chunks| >= 2;
    pieces := [];
    var i := 0;
    while i < |chunks|
      invariant 0 <= i <= |chunks| && |pieces| == i
      invariant forall j :: 0 <= j < i ==>
                  pieces[j] == Piece(KindAt(j, |chunks|), originalType, Fragment(id, j, |chunks|, chunks[j]))
    {
      var kind := if i == 0 then FRAGMENT_START else if i == |chunks| - 1 then FRAGMENT_END else FRAGMENT_CONTINUE;
      pieces := pieces + [Piece(kind, originalType, Fragment(id, i, |chunks|, chunks[i]))];
      i := i + 1;
    }
    assert Data(pieces) == chunks;
  }

  function Data(pieces: seq<Piece>): seq<Bytes> {
    seq(|pieces|, i requires 0 <= i < |pieces| => pieces[i].fragment.data)
  }

  // ----- Collecting -----

  /** The dictionaries `fragments` (id to received parts) and `metadata` (id to the sender of its first part). */
  datatype Table = Table(parts: map<Bytes, map<int, Bytes>>, senders: map<Bytes, string>)

  /** Parts 0 to total - 1 joined, or None when one is missing. */
  function Assemble(parts: map<int, Bytes>, total: nat): Option<Bytes> {
    if total == 0 then Some([])
    else if total - 1 !in parts then None
    else
      var front := Assemble(parts, total - 1);
      if front.None? then None else Some(front.value + parts[total - 1])
  }

  /** The parts held for an id. */
  function PartsOf(t: Table, id: Bytes): map<int, Bytes> {
    if id in t.parts then t.parts[id] else map[]
  }

  /** Store one part; the first part of an id also records its sender. */
  function Put(t: Table, f: Fragment, sender: string): Table {
    Table(t.parts[f.id := PartsOf(t, f.id)[f.index := f.data]],
          if f.id in t.parts then t.senders else t.senders[f.id := sender])
  }

  /** Hand out an id whose number of parts is `total` and whose parts are all there, and forget it. */
  function Finish(t: Table, id: Bytes, total: nat): (Table, Option<(Bytes, string)>) {
    var parts := PartsOf(t, id);
    var whole := if |parts| == total then Assemble(parts, total) else None;
    if whole.None? then (t, None)
    else
      (Table(t.parts - {id}, t.senders - {id}),
       Some((whole.value, if id in t.senders then t.senders[id] else "Unknown")))
  }

  /** `add_fragment`. */
  function Add(t: Table, f: Fragment, sender: string): (Table, Option<(Bytes, string)>) {
    Finish(Put(t, f, sender), f.id, f.total)
  }

  /** The reassembly loop. */
  method Reassemble(parts: map<int, Bytes>, total: nat) returns (r: Option<Bytes>)
    ensures r == Assemble(parts, total)
  {
    var data, i := [], 0;
    while i < total
      invariant 0 <= i <= total && Assemble(parts, i) == Some(data)
    {
      if i !in parts {
        AssembleStops(parts, i, total);
        return None;
      }
      data := data + parts[i];
      i := i + 1;
    }
    r := Some(data);
  }

  lemma {:induction false} AssembleStops(parts: map<int, Bytes>, i: nat, total: nat)
    requires i < total && i !in parts
    ensures Assemble(parts, total).None?
    decreases total
  {
    if i < total - 1 {
      AssembleStops(parts, i, total - 1);
    }
  }
}
