/** The chunking loop of `readDataFromFile`: the file is read with
    `file.read(994)` until a read returns nothing, and every non-empty read is
    appended to `dataArr`. The file's contents are a parameter here. */
module Chunking {
  import opened Codec

  /** The chunks a regular file yields: full 994-byte blocks, then the rest. */
  function Chunks(content: Bytes): seq<Bytes>
    decreases |content|
  {
    if content == [] then []
    else if |content| <= DataSize then [content]
    else [content[..DataSize]] + Chunks(content[DataSize..])
  }

  /** Concatenation of a sequence of byte strings. */
  function Flatten(chunks: seq<Bytes>): Bytes
  {
    if chunks == [] then [] else chunks[0] + Flatten(chunks[1..])
  }

  /** The loop: one `read` per iteration, stopping at the first empty one. */
  method ReadChunks(content: Bytes) returns (dataArr: seq<Bytes>)
    ensures dataArr == Chunks(content)
  {
    dataArr := [];
    var pos := 0;
    while true
      invariant 0 <= pos <= |content|
      invariant dataArr + Chunks(content[pos..]) == Chunks(content)
      decreases |content| - pos
    {
      var data := content[pos..Min(pos + DataSize, |content|)];
      if data == [] {
        break;
      }
      var rest := content[pos..];
      if |rest| <= DataSize {
        assert data == rest && content[pos + |data|..] == [];
      } else {
        assert data == rest[..DataSize] && content[pos + |data|..] == rest[DataSize..];
      }
      assert Chunks(rest) == [data] + Chunks(content[pos + |data|..]);
      dataArr := dataArr + [data];
      pos := pos + |data|;
    }
    assert content[pos..] == [];
  }

  /** Joining the chunks gives back the file. */
  lemma {:induction false} FlattenChunks(content: Bytes)
    ensures Flatten(Chunks(content)) == content
    decreases |content|
  {
    if |content| > DataSize {
      FlattenChunks(content[DataSize..]);
      assert Chunks(content)[1..] == Chunks(content[DataSize..]);
      assert content == content[..DataSize] + content[DataSize..];
    }
  }

  /** Every chunk is a non-empty payload of at most 994 bytes; every chunk
      but the last is full. */
  lemma {:induction false} ChunkSizes(content: Bytes)
    ensures forall i :: 0 <= i < |Chunks(content)| ==> 0 < |Chunks(content)[i]| <= DataSize
    ensures forall i :: 0 <= i < |Chunks(content)| - 1 ==> |Chunks(content)[i]| == DataSize
    decreases |content|
  {
    if |content| > DataSize {
      ChunkSizes(content[DataSize..]);
      var rest := Chunks(content[DataSize..]);
      assert Chunks(content) == [content[..DataSize]] + rest;
      forall i | 1 <= i < |Chunks(content)|
        ensures Chunks(content)[i] == rest[i - 1]
      {
      }
    }
  }

  /** The number of chunks is the file length divided by 994, rounded up. */
  lemma {:induction false} ChunkCount(content: Bytes)
    ensures |Chunks(content)| == (|content| + DataSize - 1) / DataSize
    decreases |content|
  {
    if |content| > DataSize {
      ChunkCount(content[DataSize..]);
    }
  }
}
