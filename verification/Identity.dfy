/** The binary identity announcement of `bitchat/protocol.py`. */
module Identity {
  import opened Outcomes
  import opened Octets

  // ----- Hexadecimal ids -----

  type nibble = n: int | 0 <= n < 16

  /** A peer id as its hexadecimal digits. */
  type Hex = seq<nibble>

  const ID_DIGITS: nat := 16
  const ID_BYTES: nat := 8

  /** `ljust(16, '0')[:16]`. */
  function Sixteen(h: Hex): (r: Hex)
    ensures |r| == ID_DIGITS
  {
    if |h| >= ID_DIGITS then h[..ID_DIGITS] else h + seq(ID_DIGITS - |h|, _ => 0)
  }

  function FromHex(h: Hex): (r: Bytes)
    requires |h| % 2 == 0
    ensures |r| == |h| / 2
    decreases |h|
  {
    if h == [] then [] else var high: int, low: int := h[0], h[1]; [16 * high + low] + FromHex(h[2..])
  }

  function ToHex(s: Bytes): Hex {
    if s == [] then [] else [s[0] / 16, s[0] % 16] + ToHex(s[1..])
  }

  lemma {:induction false} HexRoundTrip(h: Hex)
    requires |h| % 2 == 0
    ensures ToHex(FromHex(h)) == h
    decreases |h|
  {
    if h != [] {
      assert FromHex(h)[1..] == FromHex(h[2..]);
      HexRoundTrip(h[2..]);
      assert h == [h[0], h[1]] + h[2..];
    }
  }

  // ----- Encoding -----

  datatype Draft = Draft(
    peerId: Hex, publicKey: Bytes, signingKey: Bytes, nickname: Bytes, timestamp: nat, signature: Bytes, previous: Hex)

  datatype Announcement = Announcement(
    peerId: Hex, publicKey: Bytes, signingKey: Bytes, nickname: Bytes, timestamp: real, signature: Bytes,
    previous: Option<Hex>)

  predicate Fits(d: Draft) {
    |d.publicKey| < 256 && |d.signingKey| < 256 && |d.nickname| < 256 && |d.signature| < 256
  }

  /** The timestamp is multiplied by 1000 and cut to 64 bits. */
  function Stamp(d: Draft): Bytes {
    BigEndian(1000 * d.timestamp, 8)
  }

  /** The previous peer id on the wire, if there is one. */
  function Previous(d: Draft): Bytes {
    if d.previous != [] then FromHex(Sixteen(d.previous)) else []
  }

  /** `encode_noise_identity_announcement_binary`; None where a length does not fit a byte. */
  function Encode(d: Draft): Option<Bytes> {
    if !Fits(d) then None
    else
      Some(Front(d) + Stamp(d) + Previous(d) + Short(d.signature))
  }

  /** The fields before the timestamp. */
  function Front(d: Draft): Bytes
    requires Fits(d)
  {
    [if d.previous != [] then 1 else 0] + FromHex(Sixteen(d.peerId)) + Short(d.publicKey) + Short(d.signingKey)
    + Short(d.nickname)
  }

  /** The loop that writes the timestamp byte by byte, most significant first. */
  method TimestampBytes(n: nat) returns (s: Bytes)
    ensures s == BigEndian(n, 8)
  {
    s := [];
    var i := 0;
    Shifts(n, 8);
    while i < 8
      invariant 0 <= i <= 8
      invariant s == BigEndian(Shift(n, 8 - i), i)
    {
      var shifted := Shift(n, 7 - i);
      s := s + [shifted % 256];
      i := i + 1;
    }
  }

  /** `n >> (8 * k)`. */
  function Shift(n: nat, k: nat): nat {
    if k == 0 then n else Shift(n, k - 1) / 256
  }

  lemma {:induction false} Shifts(n: nat, k: nat)
    ensures forall i :: 0 < i <= k ==> Shift(n, i) == Shift(n, i - 1) / 256
    decreases k
  {
    if k > 0 {
      Shifts(n, k - 1);
    }
  }

  // ----- Parsing -----

  /** Exactly `n` bytes, or None. */
  function Take(data: Bytes, at: nat, n: nat): Option<Bytes> {
    if at + n > |data| then None else Some(data[at..at + n])
  }

  /** The parser, together with the number of bytes it consumed. `utf8` says which nicknames decode. */
  function ParsePrefix(data: Bytes, utf8: Bytes -> bool): Option<(Announcement, nat)> {
    if |data| < 1 + ID_BYTES then None
    else
      var peerId := ToHex(data[1..9]);
      var key := ReadShort(data, 9);
      if key.None? then None
      else
        var signing := ReadShort(data, key.value.1);
        if signing.None? then None
        else
          var nick := ReadShort(data, signing.value.1);
          if nick.None? || (nick.value.0 != [] && !utf8(nick.value.0)) then None
          else ParseRest(data, nick.value.1, Announcement(peerId, key.value.0, signing.value.0, nick.value.0, 0.0, [], None))
  }

  /** The fields after the nickname: timestamp, previous id if the flag says so, and signature. */
  function ParseRest(data: Bytes, at: nat, a: Announcement): Option<(Announcement, nat)> {
    var stamp := Take(data, at, 8);
    if stamp.None? then None
    else
      var has := data[0] % 2 == 1;
      var previous := if has then Take(data, at + 8, ID_BYTES) else None;
      if has && previous.None? then None
      else
        var sig := ReadShort(data, at + 8 + if has then ID_BYTES else 0);
        if sig.None? then None
        else
          Some((a.(timestamp := FromBigEndian(stamp.value) as real / 1000.0, signature := sig.value.0,
                   previous := if has then Some(ToHex(previous.value)) else None),
                sig.value.1))
  }

  /** `parse_noise_identity_announcement_binary`. */
  function Parse(data: Bytes, utf8: Bytes -> bool): Option<Announcement> {
    var r := ParsePrefix(data, utf8);
    if r.None? then None else Some(r.value.0)
  }

  // ----- Longer inputs -----

  lemma ReadShortExtends(data: Bytes, ext: Bytes, at: nat)
    requires ReadShort(data, at).Some?
    ensures ReadShort(data + ext, at) == ReadShort(data, at) && at < ReadShort(data, at).value.1 <= |data|
  {
    var end := at + 1 + data[at];
    assert (data + ext)[at] == data[at] && (data + ext)[at + 1..end] == data[at + 1..end];
  }

  lemma TakeExtends(data: Bytes, ext: Bytes, at: nat, n: nat)
    requires Take(data, at, n).Some?
    ensures Take(data + ext, at, n) == Take(data, at, n)
  {
    assert (data + ext)[at..at + n] == data[at..at + n];
  }

  lemma ParseRestExtends(data: Bytes, ext: Bytes, at: nat, a: Announcement)
    requires data != [] && ParseRest(data, at, a).Some?
    ensures ParseRest(data + ext, at, a) == ParseRest(data, at, a) && ParseRest(data, at, a).value.1 <= |data|
  {
    assert (data + ext)[0] == data[0];
    TakeExtends(data, ext, at, 8);
    if data[0] % 2 == 1 {
      TakeExtends(data, ext, at + 8, ID_BYTES);
    }
    ReadShortExtends(data, ext, at + 8 + if data[0] % 2 == 1 then ID_BYTES else 0);
  }

  /** Bytes after what the parser consumed change nothing. */
  lemma ParseExtends(data: Bytes, ext: Bytes, utf8: Bytes -> bool)
    requires ParsePrefix(data, utf8).Some?
    ensures ParsePrefix(data + ext, utf8) == ParsePrefix(data, utf8) && ParsePrefix(data, utf8).value.1 <= |data|
  {
    assert (data + ext)[1..9] == data[1..9];
    ReadShortExtends(data, ext, 9);
    var key := ReadShort(data, 9).value;
    ReadShortExtends(data, ext, key.1);
    var signing := ReadShort(data, key.1).value;
    ReadShortExtends(data, ext, signing.1);
    var nick := ReadShort(data, signing.1).value;
    ParseRestExtends(data, ext, nick.1, Announcement(ToHex(data[1..9]), key.0, signing.0, nick.0, 0.0, [], None));
  }

  // ----- Round trip -----

  function Expected(d: Draft): Announcement {
    Announcement(Sixteen(d.peerId), d.publicKey, d.signingKey, d.nickname,
                 ((1000 * d.timestamp) % U64_LIMIT) as real / 1000.0, d.signature,
                 if d.previous != [] then Some(Sixteen(d.previous)) else None)
  }

  /** Three length-prefixed fields in a row. */
  lemma ReadThree(before: Bytes, x: Bytes, y: Bytes, z: Bytes, after: Bytes)
    requires |x| < 256 && |y| < 256 && |z| < 256
    ensures
      var data := before + Short(x) + Short(y) + Short(z) + after;
      var i, j, k := |before + Short(x)|, |before + Short(x) + Short(y)|, |before + Short(x) + Short(y) + Short(z)|;
      && ReadShort(data, |before|) == Some((x, i)) && ReadShort(data, i) == Some((y, j))
      && ReadShort(data, j) == Some((z, k))
  {
    var data := before + Short(x) + Short(y) + Short(z) + after;
    assert data == before + Short(x) + (Short(y) + Short(z) + after);
    ReadShortAt(before, x, Short(y) + Short(z) + after);
    assert data == before + Short(x) + Short(y) + (Short(z) + after);
    ReadShortAt(before + Short(x), y, Short(z) + after);
    ReadShortAt(before + Short(x) + Short(y), z, after);
  }

  lemma RestAt(before: Bytes, d: Draft, a: Announcement)
    requires before != [] && before[0] == (if d.previous != [] then 1 else 0) && |d.signature| < 256
    ensures
      var data := before + Stamp(d) + Previous(d) + Short(d.signature);
      ParseRest(data, |before|, a) ==
        Some((a.(timestamp := ((1000 * d.timestamp) % U64_LIMIT) as real / 1000.0, signature := d.signature,
                 previous := if d.previous != [] then Some(Sixteen(d.previous)) else None), |data|))
  {
    var prev := Previous(d);
    var data := before + Stamp(d) + prev + Short(d.signature);
    var at := |before|;
    assert data[at..at + 8] == Stamp(d);
    BigEndianRoundTrip(1000 * d.timestamp, 8);
    Power256Of8();
    if d.previous != [] {
      assert data[at + 8..at + 16] == prev;
      HexRoundTrip(Sixteen(d.previous));
    }
    ReadShortAt(before + Stamp(d) + prev, d.signature, []);
    assert before + Stamp(d) + prev + Short(d.signature) + [] == data;
  }

  /** The parser's result, from what its reads return. */
  lemma ParseFields(data: Bytes, utf8: Bytes -> bool, key: Bytes, i: nat, signing: Bytes, j: nat, nick: Bytes, k: nat)
    requires |data| >= 9 && utf8(nick)
    requires ReadShort(data, 9) == Some((key, i)) && ReadShort(data, i) == Some((signing, j))
    requires ReadShort(data, j) == Some((nick, k))
    ensures ParsePrefix(data, utf8) == ParseRest(data, k, Announcement(ToHex(data[1..9]), key, signing, nick, 0.0, [], None))
  {
  }

  /** Where the fields before the timestamp lie. */
  lemma Layout(flag: byte, id: Bytes, key: Bytes, signing: Bytes, nick: Bytes, stamp: Bytes, prev: Bytes, sig: Bytes)
    requires |id| == 8 && |key| < 256 && |signing| < 256 && |nick| < 256
    ensures
      var b3 := [flag] + id + Short(key) + Short(signing) + Short(nick);
      var data := b3 + stamp + prev + sig;
      var i, j, k := 10 + |key|, 11 + |key| + |signing|, 12 + |key| + |signing| + |nick|;
      && |data| >= 9 && data[1..9] == id && b3[0] == flag && |b3| == k
      && ReadShort(data, 9) == Some((key, i)) && ReadShort(data, i) == Some((signing, j))
      && ReadShort(data, j) == Some((nick, k))
  {
    var b0 := [flag] + id;
    var b3 := b0 + Short(key) + Short(signing) + Short(nick);
    var data := b3 + stamp + prev + sig;
    assert data == b3 + (stamp + prev + sig);
    ReadThree(b0, key, signing, nick, stamp + prev + sig);
    assert data[..9] == b0;
    assert data[1..9] == data[..9][1..9] == id;
  }

  /** What is on the wire by offset, up to the timestamp. */
  lemma AnnouncementLayout(d: Draft)
    requires Encode(d).Some?
    ensures
      var data := Encode(d).value;
      var i, j, k := 10 + |d.publicKey|, 11 + |d.publicKey| + |d.signingKey|, 12 + |d.publicKey| + |d.signingKey| + |d.nickname|;
      && |data| >= 9 && data[0] == (if d.previous != [] then 1 else 0) && data[1..9] == FromHex(Sixteen(d.peerId))
      && ReadShort(data, 9) == Some((d.publicKey, i)) && ReadShort(data, i) == Some((d.signingKey, j))
      && ReadShort(data, j) == Some((d.nickname, k)) && data[k..] == Stamp(d) + Previous(d) + Short(d.signature)
      && |Front(d)| == k && Front(d)[0] == data[0]
  {
    var flag: byte, id := if d.previous != [] then 1 else 0, FromHex(Sixteen(d.peerId));
    var b3 := Front(d);
    Layout(flag, id, d.publicKey, d.signingKey, d.nickname, Stamp(d), Previous(d), Short(d.signature));
    TailOf(b3, Stamp(d), Previous(d), Short(d.signature), Encode(d).value);
  }

  lemma TailOf(front: Bytes, stamp: Bytes, prev: Bytes, sig: Bytes, data: Bytes)
    requires data == front + stamp + prev + sig && front != []
    ensures data[0] == front[0] && data[|front|..] == stamp + prev + sig
  {
  }

  /** Encode then parse returns every field and consumes every byte. */
  lemma AnnouncementRoundTrip(d: Draft, utf8: Bytes -> bool)
    requires Encode(d).Some? && utf8(d.nickname)
    ensures ParsePrefix(Encode(d).value, utf8) == Some((Expected(d), |Encode(d).value|))
  {
    AnnouncementLayout(d);
    HexRoundTrip(Sixteen(d.peerId));
    var i, j := 10 + |d.publicKey|, 11 + |d.publicKey| + |d.signingKey|;
    ParseFields(Encode(d).value, utf8, d.publicKey, i, d.signingKey, j, d.nickname, |Front(d)|);
    RestAt(Front(d), d, Announcement(Sixteen(d.peerId), d.publicKey, d.signingKey, d.nickname, 0.0, [], None));
  }

  /** An id keeps its first 16 digits and is filled up with zeros; a byte is two digits, the high one first. */
  lemma DigitsKept(h: Hex, i: nat)
    requires i < 8
    ensures Sixteen(h)[2 * i] == (if 2 * i < |h| then h[2 * i] else 0)
    ensures Sixteen(h)[2 * i + 1] == (if 2 * i + 1 < |h| then h[2 * i + 1] else 0)
    ensures FromHex(Sixteen(h))[i] == 16 * (Sixteen(h)[2 * i] as int) + Sixteen(h)[2 * i + 1] as int
  {
    ByteOfDigits(Sixteen(h), i);
  }

  lemma {:induction false} ByteOfDigits(h: Hex, i: nat)
    requires |h| % 2 == 0 && 2 * i < |h|
    ensures FromHex(h)[i] == 16 * (h[2 * i] as int) + h[2 * i + 1] as int
    decreases |h|
  {
    if i > 0 {
      ByteOfDigits(h[2..], i - 1);
    }
  }

  /** Encoding fails exactly when a length does not fit its byte. */
  lemma EncodeFails(d: Draft)
    ensures Encode(d).None? <==> |d.publicKey| > 255 || |d.signingKey| > 255 || |d.nickname| > 255 || |d.signature| > 255
  {
  }

  /** An announcement whose nickname does not decode is rejected. */
  lemma BadNicknameRejected(d: Draft, utf8: Bytes -> bool)
    requires Encode(d).Some? && d.nickname != [] && !utf8(d.nickname)
    ensures Parse(Encode(d).value, utf8).None?
  {
    AnnouncementLayout(d);
    var i, j := 10 + |d.publicKey|, 11 + |d.publicKey| + |d.signingKey|;
    BadFields(Encode(d).value, utf8, d.publicKey, i, d.signingKey, j, d.nickname, |Front(d)|);
  }

  lemma BadFields(data: Bytes, utf8: Bytes -> bool, key: Bytes, i: nat, signing: Bytes, j: nat, nick: Bytes, k: nat)
    requires |data| >= 9 && nick != [] && !utf8(nick)
    requires ReadShort(data, 9) == Some((key, i)) && ReadShort(data, i) == Some((signing, j))
    requires ReadShort(data, j) == Some((nick, k))
    ensures ParsePrefix(data, utf8).None?
  {
  }

  /** The fields come back as they were exactly for 16-digit ids and timestamps whose thousandfold fits 64 bits. */
  lemma FieldsRecovered(d: Draft)
    ensures Expected(d).peerId == d.peerId <==> |d.peerId| == ID_DIGITS
    ensures Expected(d).timestamp == d.timestamp as real <==> 1000 * d.timestamp < U64_LIMIT
    ensures d.previous != [] ==> (Expected(d).previous == Some(d.previous) <==> |d.previous| == ID_DIGITS)
  {
    assert |d.peerId| == ID_DIGITS ==> d.peerId[..ID_DIGITS] == d.peerId;
    assert |d.previous| == ID_DIGITS ==> d.previous[..ID_DIGITS] == d.previous;
    var t := 1000 * d.timestamp;
    assert (t % U64_LIMIT) as real / 1000.0 == d.timestamp as real <==> t % U64_LIMIT == t;
  }

  /** Every strict prefix of an encoding is rejected, so no announcement is a prefix of another. */
  lemma PrefixFree(d: Draft, utf8: Bytes -> bool, n: nat)
    requires Encode(d).Some? && utf8(d.nickname) && n < |Encode(d).value|
    ensures Parse(Encode(d).value[..n], utf8).None?
  {
    var data := Encode(d).value;
    AnnouncementRoundTrip(d, utf8);
    assert data[..n] + data[n..] == data;
    if ParsePrefix(data[..n], utf8).Some? {
      ParseExtends(data[..n], data[n..], utf8);
    }
  }
}
