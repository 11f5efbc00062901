/** SHA-256 from bytes to the final state: the buffered update over the block transform. */
module Sha256 {
  import opened BlockStream
  import opened BlockWords
  import opened MessageSchedule
  import opened Sequences
  import Sha2Stream
  import T = Sha256Transform

  lemma LoadedWord(b0: Byte, b1: Byte, b2: Byte, b3: Byte)
    ensures T.Reverse(HostWord(b0, b1, b2, b3)) == MessageWord(b0, b1, b2, b3)
  {
    SmallWord(b0);
    SmallWord(b1);
    SmallWord(b2);
    SmallWord(b3);
    T.ReverseReadsBigEndian(b0 as Word, b1 as Word, b2 as Word, b3 as Word);
  }

  lemma LoadedBlock(block: seq<Byte>)
    requires |block| == 64
    ensures T.Loaded(WordsOf(HOST, block)) == Words(MessageWord, block)
  {
    hide T.Reverse, HostWord, MessageWord, WordAt;
    forall b0, b1, b2, b3
      ensures T.Reverse(HostWord(b0, b1, b2, b3)) == MessageWord(b0, b1, b2, b3)
    {
      LoadedWord(b0, b1, b2, b3);
    }
    LoadedWords(T.Reverse, block);
  }

  /** The compression of FIPS 180-4 section 6.2.2 on the bytes of a block. */
  function Compression(k: seq<Word>): Compress<T.Regs>
    requires |k| == 64
  {
    (h: T.Regs, block: seq<Byte>) => if |block| == 64 then T.FipsCompress(k, h, Words(MessageWord, block)) else h
  }

  /** The coded schedule and rounds, over the words of the host, make that compression. */
  lemma CodedCompression(k: seq<Word>, h: T.Regs, block: seq<Byte>)
    requires |k| == 64 && |block| == 64
    ensures T.Coded(k).Valid() && T.Coded(k).rounds == 64
    ensures Compressed(HOST, T.Coded(k), T.Sum)(h, block) == Compression(k)(h, block)
  {
    hide RoundsTo, FullSchedule, T.Loaded, WordsOf, Words, T.Sum;
    LoadedBlock(block);
    T.CodedIsSpecified(k, WordsOf(HOST, block), h, 64);
  }

  /** The block transform, on a block in memory that may be the ring itself, is that compression. */
  method TransformBlock(k: seq<Word>, h: T.Regs, data: array<Byte>, ring: array<Byte>) returns (h': T.Regs)
    requires |k| == 64 && data.Length == 64 && ring.Length == 64
    modifies ring
    ensures h' == Compression(k)(h, old(data[..]))
  {
    ghost var block := data[..];
    HostIsSound();
    CodedCompression(k, h, block);
    var r := Transform(HOST, T.Coded(k), h, data, ring);
    h' := T.Sum(h, r);
  }

  /** Any message in any split: the hash computation of FIPS 180-4 sections 5.1.1 and 6.2. */
  method Hash(k: seq<Word>, initial: T.Regs, chunks: seq<seq<Byte>>) returns (state: T.Regs)
    requires |k| == 64
    ensures state == FoldBlocks(Compression(k), 64, initial,
                                Padded(Flat(chunks), 64, Sha2Stream.LengthField(false, |Flat(chunks)|)))
  {
    HostIsSound();
    state := Sha2Stream.Digest(HOST, T.Coded(k), T.Sum, false, initial, chunks);
    SameAsCoded(k, initial, Padded(Flat(chunks), 64, Sha2Stream.LengthField(false, |Flat(chunks)|)));
  }

  lemma SameAsCoded(k: seq<Word>, initial: T.Regs, m: seq<Byte>)
    requires |k| == 64
    ensures T.Coded(k).Valid()
    ensures FoldBlocks(Compressed(HOST, T.Coded(k), T.Sum), 64, initial, m) == FoldBlocks(Compression(k), 64, initial, m)
  {
    forall h, block | |block| == 64
      ensures Compressed(HOST, T.Coded(k), T.Sum)(h, block) == Compression(k)(h, block)
    {
      CodedCompression(k, h, block);
    }
    SameFold(Compressed(HOST, T.Coded(k), T.Sum), Compression(k), 64, initial, m);
  }
}
