/** Cutting a file into chunks with their content hashes. SHA-256 is a parameter. */
module Chunker {
  import opened Seqs
  import opened Text

  type Digest = seq<Byte> -> seq<Byte>

  datatype ChunkResult = ChunkResult(index: nat, data: seq<Byte>, hash: string)

  function HashOf(sha: Digest, data: seq<Byte>): string {
    "0x" + Hex(sha(data))
  }

  /** No two contents share a digest: what is asked of SHA-256. */
  ghost predicate CollisionFree(sha: Digest) {
    forall a, b :: sha(a) == sha(b) ==> a == b
  }

  method BufferToHex(bytes: seq<Byte>) returns (hex: string)
    ensures hex == "0x" + Hex(bytes)
  {
    hex := "";
    for i := 0 to |bytes|
      invariant hex == Hex(bytes[..i])
    {
      assert bytes[..i + 1][..i] == bytes[..i];
      hex := hex + [HexDigit(bytes[i] / 16), HexDigit(bytes[i] % 16)];
    }
    assert bytes[..|bytes|] == bytes;
    hex := "0x" + hex;
  }

  /** The chunks of a file in order: nothing lost, every one of the chunk size but the last, none empty. */
  method ChunkFile(file: seq<Byte>, chunkSize: nat, sha: Digest) returns (chunks: seq<ChunkResult>)
    requires 0 < chunkSize
    ensures |chunks| == PieceCount(|file|, chunkSize)
    ensures forall i | 0 <= i < |chunks| :: chunks[i].index == i && chunks[i].hash == HashOf(sha, chunks[i].data)
    ensures forall i | 0 <= i < |chunks| :: 0 < |chunks[i].data| <= chunkSize
    ensures Flatten(DataOf(chunks)) == file
    ensures DataOf(chunks) == Pieces(file, chunkSize)
  {
    chunks := [];
    var offset, index := 0, 0;
    ghost var pieces := Pieces(file, chunkSize);
    assert file[0..] == file;
    while offset < |file|
      invariant 0 <= offset && index == |chunks| <= |pieces|
      invariant pieces[index..] == Pieces(if offset <= |file| then file[offset..] else [], chunkSize)
      invariant DataOf(chunks) == pieces[..index]
      invariant forall i | 0 <= i < |chunks| :: chunks[i].index == i && chunks[i].hash == HashOf(sha, chunks[i].data)
    {
      var data := file[offset..Min(offset + chunkSize, |file|)];
      NextPiece(file, offset, chunkSize, pieces, index);
      var hash := BufferToHex(sha(data));
      chunks := chunks + [ChunkResult(index, data, hash)];
      offset := offset + chunkSize;
      index := index + 1;
    }
    assert pieces[index..] == [] && pieces[..index] == pieces;
    PiecesCounted(file, chunkSize);
    PiecesFlatten(file, chunkSize);
    forall i | 0 <= i < |chunks| ensures 0 < |chunks[i].data| <= chunkSize {
      assert DataOf(chunks)[i] in pieces;
    }
  }

  ghost function DataOf(chunks: seq<ChunkResult>): seq<seq<Byte>> {
    seq(|chunks|, i requires 0 <= i < |chunks| => chunks[i].data)
  }

  lemma NextPiece(file: seq<Byte>, offset: nat, size: nat, pieces: seq<seq<Byte>>, index: nat)
    requires 0 < size && offset < |file| && index <= |pieces|
    requires pieces[index..] == Pieces(file[offset..], size)
    ensures index < |pieces|
    ensures pieces[index] == file[offset..Min(offset + size, |file|)]
    ensures pieces[index + 1..] == Pieces(if offset + size <= |file| then file[offset + size..] else [], size)
    ensures pieces[..index + 1] == pieces[..index] + [pieces[index]]
  {
    var rest := file[offset..];
    var n := Min(size, |rest|);
    assert pieces[index] == pieces[index..][0] == rest[..n];
    assert pieces[index + 1..] == pieces[index..][1..] == Pieces(rest[n..], size);
    assert rest[..n] == file[offset..Min(offset + size, |file|)];
    if offset + size <= |file| {
      assert rest[n..] == file[offset + size..];
    } else {
      assert rest[n..] == [];
    }
  }
}
