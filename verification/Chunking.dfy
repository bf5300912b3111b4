/** Splitting a byte string into pieces of a fixed size, as both fragmenters do. */
module Chunking {
  import opened Octets

  /** `[data[i:i+size] for i in range(0, len(data), size)]`. */
  function Chunks(data: Bytes, size: nat): seq<Bytes>
    requires size > 0
    decreases |data|
  {
    if data == [] then [] else [Slice(data, 0, size)] + Chunks(data[|Slice(data, 0, size)|..], size)
  }

  function Join(pieces: seq<Bytes>): Bytes {
    if pieces == [] then [] else pieces[0] + Join(pieces[1..])
  }

  /** The pieces join to the original, none is empty, and all but the last are full. */
  lemma {:induction false} ChunksRebuild(data: Bytes, size: nat)
    requires size > 0
    ensures
      var cs := Chunks(data, size);
      && Join(cs) == data
      && (forall i :: 0 <= i < |cs| ==> 1 <= |cs[i]| <= size)
      && (forall i :: 0 <= i < |cs| - 1 ==> |cs[i]| == size)
    decreases |data|
  {
    if data != [] {
      var first := Slice(data, 0, size);
      var rest := data[|first|..];
      ChunksRebuild(rest, size);
      assert first + rest == data;
      var cs := Chunks(data, size);
      assert cs[1..] == Chunks(rest, size);
      assert forall i :: 1 <= i < |cs| ==> cs[i] == cs[1..][i - 1];
    }
  }

  /** The list comprehension as a loop over offsets. */
  method ChunkLoop(data: Bytes, size: nat) returns (chunks: seq<Bytes>)
    requires size > 0
    ensures chunks == Chunks(data, size)
  {
    chunks := [];
    var i := 0;
    assert Slice(data, 0, |data|) == data;
    while i < |data|
      invariant 0 <= i
      invariant chunks + Chunks(Slice(data, i, |data|), size) == Chunks(data, size)
      decreases |data| - i
    {
      var rest := data[i..];
      var piece := Slice(data, i, i + size);
      assert piece == Slice(rest, 0, size);
      assert rest[|piece|..] == Slice(data, i + size, |data|);
      chunks := chunks + [piece];
      i := i + size;
    }
  }
}
