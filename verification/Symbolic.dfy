/**
 Symbolic cryptography, one symbol per byte.

 A byte string is a sequence of symbols, and every primitive returns a string of free symbols of the right length that
 remember their arguments: hashes, HMACs, public keys, shared secrets and ciphertexts of distinct inputs are distinct.
 Lengths are those of SHA-256 (32), X25519 (32) and ChaCha20-Poly1305 (a 16-byte tag), so the code's slicing of
 handshake messages by offset can be modelled as it is written.
 */
module Symbolic {
  import opened Outcomes

  type Bytes = seq<Sym>

  /** A private X25519 key, by name. */
  type PrivateKey = nat

  datatype Sym =
    | Lit(b: nat)
    | PublicByte(owner: PrivateKey, i: int)
    | SharedByte(low: PrivateKey, high: PrivateKey, i: int)
    | StrayByte(owner: PrivateKey, peer: Bytes, i: int)
    | HashByte(data: Bytes, i: int)
    | MacByte(key: Bytes, data: Bytes, i: int)
    | SealByte(key: Bytes, nonce: nat, ad: Bytes, text: Bytes, i: int)

  const KEY_LEN: nat := 32
  const TAG_LEN: nat := 16

  function Public(k: PrivateKey): (p: Bytes)
    ensures |p| == KEY_LEN && p[0] == PublicByte(k, 0)
  {
    seq(KEY_LEN, i => PublicByte(k, i))
  }

  /** The shared secret of two key pairs is named by the unordered pair of their private keys. */
  function Shared(a: PrivateKey, b: PrivateKey): (s: Bytes)
    ensures |s| == KEY_LEN
  {
    if a <= b then seq(KEY_LEN, i => SharedByte(a, b, i)) else seq(KEY_LEN, i => SharedByte(b, a, i))
  }

  /** X25519: any 32 bytes are accepted as a public key; bytes nobody's key produced give a stray secret. */
  function Exchange(k: PrivateKey, pub: Bytes): (s: Bytes)
    ensures |s| == KEY_LEN
  {
    if |pub| > 0 && pub[0].PublicByte? && pub == Public(pub[0].owner) then Shared(k, pub[0].owner)
    else seq(KEY_LEN, i => StrayByte(k, pub, i))
  }

  lemma ExchangeCommutes(a: PrivateKey, b: PrivateKey)
    ensures Exchange(a, Public(b)) == Exchange(b, Public(a)) == Shared(a, b)
  {
    assert Public(a)[0].owner == a && Public(b)[0].owner == b;
    assert Shared(a, b) == Shared(b, a);
  }

  function Hash(data: Bytes): (h: Bytes)
    ensures |h| == KEY_LEN && h[0] == HashByte(data, 0)
  {
    seq(KEY_LEN, i => HashByte(data, i))
  }

  function Mac(key: Bytes, data: Bytes): (m: Bytes)
    ensures |m| == KEY_LEN && m[0] == MacByte(key, data, 0)
  {
    seq(KEY_LEN, i => MacByte(key, data, i))
  }

  /** ChaCha20-Poly1305 as a free constructor. */
  function Seal(key: Bytes, nonce: nat, ad: Bytes, text: Bytes): (c: Bytes)
    ensures |c| == |text| + TAG_LEN && c[0] == SealByte(key, nonce, ad, text, 0)
  {
    seq(|text| + TAG_LEN, i => SealByte(key, nonce, ad, text, i))
  }

  /** Opening succeeds exactly on what sealing under the same key, nonce and associated data produced. */
  function Open(key: Bytes, nonce: nat, ad: Bytes, c: Bytes): (r: Option<Bytes>)
    ensures r.Some? <==> exists text :: c == Seal(key, nonce, ad, text)
    ensures r.Some? ==> c == Seal(key, nonce, ad, r.value)
  {
    if |c| > 0 && c[0].SealByte? && c == Seal(key, nonce, ad, c[0].text) then Some(c[0].text)
    else None
  }

  lemma OpenSeal(key: Bytes, nonce: nat, ad: Bytes, text: Bytes)
    ensures Open(key, nonce, ad, Seal(key, nonce, ad, text)) == Some(text)
  {
    assert Seal(key, nonce, ad, text)[0].text == text;
  }

  /** Sealing is injective in all its arguments. */
  lemma SealInjective(k: Bytes, n: nat, a: Bytes, t: Bytes, k': Bytes, n': nat, a': Bytes, t': Bytes)
    requires Seal(k, n, a, t) == Seal(k', n', a', t')
    ensures k == k' && n == n' && a == a' && t == t'
  {
    assert Seal(k, n, a, t)[0] == SealByte(k', n', a', t', 0);
  }

  lemma MacInjective(k: Bytes, d: Bytes, k': Bytes, d': Bytes)
    requires Mac(k, d) == Mac(k', d')
    ensures k == k' && d == d'
  {
    assert Mac(k, d)[0] == MacByte(k', d', 0);
  }
}
