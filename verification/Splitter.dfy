/** Splitting file content into blocks of one megabyte with a 32-bit cursor. */
module Splitter {
  import opened Items

  const CHUNK_SIZE: nat := 1048576
  const MAX_ARRAY: nat := 0x7FFF_FFFF

  /** The longest content the 32-bit cursor can walk through. */
  const MAX_CONTENT: nat := 0x8000_0000 - CHUNK_SIZE

  function Int32(n: int): int { (n + 0x8000_0000) % 0x1_0000_0000 - 0x8000_0000 }

  function ChunkCount(n: nat): (k: nat) { (n + 1048575) / 1048576 }

  function Chunk(data: Bytes, i: nat): (c: Bytes)
    requires i < ChunkCount(|data|)
    ensures 0 < |c| <= 1048576
    ensures |c| < 1048576 ==> i == ChunkCount(|data|) - 1
  {
    var end := (i + 1) * CHUNK_SIZE;
    data[i * CHUNK_SIZE..if end < |data| then end else |data|]
  }

  function Chunks(data: Bytes): (r: seq<Bytes>)
    ensures |r| == ChunkCount(|data|)
  {
    seq(ChunkCount(|data|), i requires 0 <= i < ChunkCount(|data|) => Chunk(data, i))
  }

  function Join(chunks: seq<Bytes>): Bytes {
    if chunks == [] then [] else Join(chunks[..|chunks| - 1]) + chunks[|chunks| - 1]
  }

  /** The first `k` blocks joined are the content up to the end of block `k`. */
  lemma {:induction false} JoinPrefix(data: Bytes, k: nat)
    requires k <= ChunkCount(|data|)
    ensures Join(Chunks(data)[..k]) == data[..if k * CHUNK_SIZE < |data| then k * CHUNK_SIZE else |data|]
  {
    if k > 0 {
      JoinPrefix(data, k - 1);
      assert Chunks(data)[..k][..k - 1] == Chunks(data)[..k - 1];
    }
  }

  /** Splitting loses nothing: the blocks joined in order are the content. */
  lemma JoinChunks(data: Bytes)
    ensures Join(Chunks(data)) == data
  {
    JoinPrefix(data, |Chunks(data)|);
    assert Chunks(data)[..|Chunks(data)|] == Chunks(data);
    assert data[..|data|] == data;
  }

  /** The number of blocks is the length divided by the block size, rounded up. */
  lemma ChunkCountIsCeiling(n: nat)
    ensures (ChunkCount(n) - 1) * 1048576 < n <= ChunkCount(n) * 1048576 || (n == 0 && ChunkCount(n) == 0)
  {
  }

  datatype NextResult = Next(chunk: Bytes) | NoSuchElement | IllegalArgument

  /** The iterator over the blocks of one content. */
  class ChunkIterator {
    const data: Bytes
    var cursor: int

    constructor (data: Bytes)
      ensures this.data == data && cursor == 0
    {
      this.data := data;
      cursor := 0;
    }

    /** The cursor stands at the start of block `i`, or at the end after the last block. */
    ghost predicate At(i: nat)
      reads this
    {
      i <= ChunkCount(|data|) && cursor == if i < ChunkCount(|data|) then i * CHUNK_SIZE else |data|
    }

    method HasNext() returns (more: bool)
      ensures more <==> cursor < |data|
    {
      more := cursor < |data|;
    }

    /** Block `i` is delivered; the range check of the array copy fails exactly when the cursor
        would leave the 32-bit range. */
    method NextChunk(ghost i: nat) returns (r: NextResult)
      requires At(i) && |data| <= MAX_ARRAY
      modifies this
      ensures i == ChunkCount(|data|) <==> r.NoSuchElement?
      ensures r.IllegalArgument? <==> i < ChunkCount(|data|) && i * CHUNK_SIZE >= MAX_CONTENT && |data| > MAX_CONTENT
      ensures r.Next? ==> r.chunk == Chunk(data, i) && At(i + 1)
      ensures !r.Next? ==> cursor == old(cursor)
    {
      var more := HasNext();
      if !more { return NoSuchElement; }
      var end := Int32(cursor + CHUNK_SIZE);
      if |data| > end {
        // copy data[cursor..end] and advance
        if end < cursor { return IllegalArgument; }
        r := Next(data[cursor..end]);
        cursor := end;
      } else {
        // read the last block
        r := Next(data[cursor..]);
        cursor := |data|;
      }
    }
  }

  /** Walking the iterator to its end delivers every block exactly when the content is at most
      2^31 - 2^20 bytes long; longer content is cut before its last block. */
  method SplitAll(data: Bytes) returns (chunks: seq<Bytes>, complete: bool)
    requires |data| <= MAX_ARRAY
    ensures complete <==> |data| <= 0x8000_0000 - 0x10_0000
    ensures chunks == if complete then Chunks(data) else Chunks(data)[..ChunkCount(|data|) - 1]
  {
    var it := new ChunkIterator(data);
    var more := it.HasNext();
    chunks, complete := [], true;
    while more && complete
      invariant |chunks| <= ChunkCount(|data|) && it.data == data
      invariant chunks == Chunks(data)[..|chunks|]
      invariant it.At(|chunks|) && more == (|chunks| < ChunkCount(|data|))
      invariant !complete ==> |data| > MAX_CONTENT && |chunks| == ChunkCount(|data|) - 1
      invariant |chunks| == ChunkCount(|data|) ==> |data| <= MAX_CONTENT
      decreases ChunkCount(|data|) - |chunks|, complete
    {
      var r := it.NextChunk(|chunks|);
      match r {
        case Next(c) => chunks := chunks + [c];
        case _ => complete := false;
      }
      more := it.HasNext();
    }
  }
}
