/** Bytes, big-endian integers and Python's clamping slices. */
module Octets {
  import opened Outcomes

  type byte = b: int | 0 <= b < 256

  type Bytes = seq<byte>

  /** `s[lo:hi]` for non-negative bounds: out-of-range bounds are clamped, never an error. */
  function Slice(s: Bytes, lo: nat, hi: nat): Bytes {
    var h := if hi <= |s| then hi else |s|;
    if lo <= h then s[lo..h] else []
  }

  function Zeros(n: nat): Bytes {
    seq(n, _ => 0)
  }

  function Power256(k: nat): nat {
    if k == 0 then 1 else 256 * Power256(k - 1)
  }

  const U16_LIMIT: nat := 0x1_0000
  const U64_LIMIT: nat := 0x1_0000_0000_0000_0000

  /** The low `k` bytes of `n`, most significant first. */
  function BigEndian(n: nat, k: nat): (s: Bytes)
    ensures |s| == k
  {
    if k == 0 then [] else BigEndian(n / 256, k - 1) + [n % 256]
  }

  function FromBigEndian(s: Bytes): nat {
    if s == [] then 0 else 256 * FromBigEndian(s[..|s| - 1]) + s[|s| - 1]
  }

  /** Writing k bytes and reading them back keeps the number modulo 256^k. */
  lemma {:induction false} BigEndianRoundTrip(n: nat, k: nat)
    ensures Power256(k) > 0 && FromBigEndian(BigEndian(n, k)) == n % Power256(k)
    decreases k
  {
    if k > 0 {
      var s := BigEndian(n, k);
      assert s[..k - 1] == BigEndian(n / 256, k - 1);
      BigEndianRoundTrip(n / 256, k - 1);
      SplitModulo(n, Power256(k - 1));
    } else {
      assert n % 1 == 0;
    }
  }

  /** The first byte weighs most. */
  lemma {:induction false} MostSignificantFirst(b: byte, s: Bytes)
    ensures FromBigEndian([b] + s) == b * Power256(|s|) + FromBigEndian(s)
    decreases |s|
  {
    if s == [] {
      assert [b] + s == [b];
      assert FromBigEndian([b]) == 256 * FromBigEndian([b][..0]) + b;
    } else {
      var n := |s| - 1;
      assert ([b] + s)[..n + 1] == [b] + s[..n] && ([b] + s)[n + 1] == s[n];
      MostSignificantFirst(b, s[..n]);
      assert 256 * (b * Power256(n)) == b * (256 * Power256(n));
    }
  }

  lemma SplitModulo(n: nat, p: nat)
    requires p > 0
    ensures n % (256 * p) == 256 * ((n / 256) % p) + n % 256
  {
    var q, r := n / 256, n % 256;
    var a, b := q / p, q % p;
    assert n == (256 * p) * a + (256 * b + r) by {
      assert q == p * a + b;
      assert n == 256 * q + r;
      assert 256 * (p * a) == (256 * p) * a;
    }
    assert 256 * b + r < 256 * p by { assert b <= p - 1; }
    UniqueRemainder(n, 256 * p, a, 256 * b + r);
  }

  lemma UniqueRemainder(n: nat, d: nat, a: nat, r: nat)
    requires d > 0 && r < d && n == d * a + r
    ensures n % d == r
  {
    var q, m := n / d, n % d;
    assert d * (q - a) == r - m by {
      assert n == d * q + m;
      assert d * (q - a) == d * q - d * a;
    }
    NoMultipleBetween(d, q - a);
  }

  lemma NoMultipleBetween(d: int, k: int)
    requires -d < d * k < d
    ensures k == 0
  {
    assert k >= 1 ==> d * k >= d;
    assert k <= -1 ==> d * k <= -d;
  }

  lemma Power256Of2()
    ensures Power256(2) == U16_LIMIT
  {
  }

  lemma Power256Of8()
    ensures Power256(8) == U64_LIMIT
  {
    assert Power256(4) == 0x1_0000_0000;
    assert Power256(6) == 0x1_0000_0000_0000;
  }

  lemma U16RoundTrip(n: nat)
    requires n < U16_LIMIT
    ensures FromBigEndian(BigEndian(n, 2)) == n
  {
    BigEndianRoundTrip(n, 2);
    Power256Of2();
  }

  /** A one-byte length and the bytes. */
  function Short(s: Bytes): Bytes
    requires |s| < 256
  {
    [|s|] + s
  }

  /** A one-byte length and that many bytes, or None; with the offset after it. */
  function ReadShort(data: Bytes, at: nat): Option<(Bytes, nat)> {
    if at >= |data| || at + 1 + data[at] > |data| then None
    else Some((data[at + 1..at + 1 + data[at]], at + 1 + data[at]))
  }

  lemma ReadShortAt(before: Bytes, s: Bytes, after: Bytes)
    requires |s| < 256
    ensures ReadShort(before + Short(s) + after, |before|) == Some((s, |before + Short(s)|))
  {
    var data := before + Short(s) + after;
    assert data[|before|] == |s|;
    assert data[|before| + 1..|before| + 1 + |s|] == s;
  }

  /** `rstrip(b'\x00')`. */
  function StripZeros(s: Bytes): Bytes {
    if s != [] && s[|s| - 1] == 0 then StripZeros(s[..|s| - 1]) else s
  }

  predicate EndsInZero(s: Bytes) {
    s != [] && s[|s| - 1] == 0
  }

  /** Stripping undoes zero padding exactly for strings that do not themselves end in zero. */
  lemma {:induction false} StripPadding(s: Bytes, n: nat)
    ensures StripZeros(s + Zeros(n)) == StripZeros(s)
    ensures StripZeros(s) == s <==> !EndsInZero(s)
    decreases n
  {
    if n == 0 {
      assert s + Zeros(0) == s;
      StripShortens(s);
    } else {
      assert (s + Zeros(n))[..|s| + n - 1] == s + Zeros(n - 1);
      StripPadding(s, n - 1);
    }
  }

  lemma {:induction false} StripShortens(s: Bytes)
    ensures |StripZeros(s)| <= |s| && (EndsInZero(s) ==> |StripZeros(s)| < |s|)
    decreases |s|
  {
    if EndsInZero(s) {
      StripShortens(s[..|s| - 1]);
    }
  }
}
