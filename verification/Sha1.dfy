/** SHA-1 from bytes to the final state: the buffered update over the block transform. */
module Sha1 {
  import opened BlockStream
  import opened BlockWords
  import opened MessageSchedule
  import opened Sequences
  import MdStream
  import T = Sha1Transform

  lemma LoadedWord(b0: Byte, b1: Byte, b2: Byte, b3: Byte)
    ensures T.Reverse(HostWord(b0, b1, b2, b3)) == MessageWord(b0, b1, b2, b3)
  {
    SmallWord(b0);
    SmallWord(b1);
    SmallWord(b2);
    SmallWord(b3);
    T.ReverseReadsBigEndian(b0 as Word, b1 as Word, b2 as Word, b3 as Word);
  }

  lemma LoadedBlock(block: seq<Byte>)
    requires |block| == 64
    ensures T.Loaded(WordsOf(HOST, block)) == Words(MessageWord, block)
  {
    hide T.Reverse, HostWord, MessageWord, WordAt;
    forall b0, b1, b2, b3
      ensures T.Reverse(HostWord(b0, b1, b2, b3)) == MessageWord(b0, b1, b2, b3)
    {
      LoadedWord(b0, b1, b2, b3);
    }
    LoadedWords(T.Reverse, block);
  }

  /** The compression of FIPS 180-4 section 6.1.2 on the bytes of a block. */
  function Compression(): Compress<T.Five<Word>> {
    (h: T.Five<Word>, block: seq<Byte>) => if |block| == 64 then T.FipsCompress(h, Words(MessageWord, block)) else h
  }

  /** The block transform: the block is copied to the workspace, which is both input and ring. */
  method TransformBlock(h: T.Five<Word>, buffer: array<Byte>) returns (h': T.Five<Word>)
    requires buffer.Length == 64
    ensures h' == Compression()(h, buffer[..])
  {
    var workspace := new Byte[64](_ => 0);
    Copy(workspace, 0, buffer[..]);
    assert workspace[..] == workspace[0..64];
    HostIsSound();
    LoadedBlock(buffer[..]);
    T.CodedIsSpecified(WordsOf(HOST, buffer[..]), h, 80);
    var r := Transform(HOST, T.Coded(), h, workspace, workspace);
    h' := T.Sum(h, r);
  }

  /**
   Any message in any split into calls that end: the hash computation of FIPS 180-4 sections 5.1.1 and
   6.1, but with a length less by what the count lost.
   */
  method Hash(initial: T.Five<Word>, chunks: seq<seq<Byte>>) returns (state: T.Five<Word>)
    requires MdStream.AllEnd(chunks)
    ensures
      var length := MdStream.Bits(|Flat(chunks)|, MdStream.Lost(chunks));
      state == FoldBlocks(Compression(), 64, initial, Padded(Flat(chunks), 64, BigEndian(length, 8)))
    ensures MdStream.Lost(chunks) % MdStream.WORD == 0 ==>
              state == FoldBlocks(Compression(), 64, initial,
                                  Padded(Flat(chunks), 64, BigEndian(MdStream.Length64(Flat(chunks)), 8)))
  {
    state := MdStream.Sha1Digest(Compression(), initial, chunks);
  }

  /** In calls below 2^29 bytes nothing is lost. */
  method HashInShortCalls(initial: T.Five<Word>, chunks: seq<seq<Byte>>) returns (state: T.Five<Word>)
    requires forall i :: 0 <= i < |chunks| ==> |chunks[i]| < 0x2000_0000
    ensures state == FoldBlocks(Compression(), 64, initial,
                                Padded(Flat(chunks), 64, BigEndian(MdStream.Length64(Flat(chunks)), 8)))
  {
    hide FoldBlocks, Padded, BigEndian, MdStream.Bits, MdStream.AllEnd, MdStream.Lost, T.FipsCompress;
    MdStream.ShortCallsEnd(chunks);
    MdStream.ShortCallsLoseNothing(chunks);
    state := Hash(initial, chunks);
  }
}
