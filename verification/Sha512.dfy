/** SHA-384 and SHA-512 from bytes to the final state: the buffered update over the block transform. */
module Sha512 {
  import opened BlockStream
  import opened MessageSchedule
  import opened Sequences
  import Sha2Stream
  import T = Sha512Transform

  type Word = bv64

  function Join(x0: Word, x1: Word, x2: Word, x3: Word, x4: Word, x5: Word, x6: Word, x7: Word): Word {
    x0 | (x1 << 8) | (x2 << 16) | (x3 << 24) | (x4 << 32) | (x5 << 40) | (x6 << 48) | (x7 << 56)
  }

  /** Eight bytes of memory as a little-endian host reads them. */
  function HostWord(b0: Byte, b1: Byte, b2: Byte, b3: Byte, b4: Byte, b5: Byte, b6: Byte, b7: Byte): Word {
    Join(b0 as Word, b1 as Word, b2 as Word, b3 as Word, b4 as Word, b5 as Word, b6 as Word, b7 as Word)
  }

  /** Eight bytes of a message as FIPS 180-4 section 3.1 reads them. */
  function MessageWord(b0: Byte, b1: Byte, b2: Byte, b3: Byte, b4: Byte, b5: Byte, b6: Byte, b7: Byte): Word {
    ((b0 as Word) << 56) | ((b1 as Word) << 48) | ((b2 as Word) << 40) | ((b3 as Word) << 32) |
    ((b4 as Word) << 24) | ((b5 as Word) << 16) | ((b6 as Word) << 8) | (b7 as Word)
  }

  function Words(read: (Byte, Byte, Byte, Byte, Byte, Byte, Byte, Byte) -> Word, block: seq<Byte>): (w: seq<Word>)
    requires |block| == 128
    ensures |w| == 16
  {
    seq(16, i requires 0 <= i < 16 => read(block[8 * i], block[8 * i + 1], block[8 * i + 2], block[8 * i + 3],
                                            block[8 * i + 4], block[8 * i + 5], block[8 * i + 6], block[8 * i + 7]))
  }

  function Read(s: seq<Byte>): Word {
    if |s| == 8 then HostWord(s[0], s[1], s[2], s[3], s[4], s[5], s[6], s[7]) else 0
  }

  function LowBits(w: Word): Word {
    w & 0xff
  }

  function LowByte(w: Word): Byte {
    SmallBits(LowBits(w));
    LowBits(w) as int
  }

  function Write(w: Word): seq<Byte> {
    [LowByte(w), LowByte(w >> 8), LowByte(w >> 16), LowByte(w >> 24),
     LowByte(w >> 32), LowByte(w >> 40), LowByte(w >> 48), LowByte(w >> 56)]
  }

  const HOST: Host<Word> := Host(8, Read, Write)

  lemma SmallWord(b: Byte)
    ensures b as Word <= 0xff
  {
  }

  lemma SmallBits(w: Word)
    ensures LowBits(w) <= 0xff && 0 <= LowBits(w) as int < 256
  {
  }

  lemma IntAndBack(x: Word)
    requires x <= 0xff
    ensures (x as int) as Word == x && 0 <= x as int < 256
  {
  }

  lemma ByteBack(w: Word)
    ensures LowByte(w) as Word == LowBits(w)
  {
    hide LowBits;
    SmallBits(w);
    IntAndBack(LowBits(w));
  }

  lemma BytesJoin(w: Word)
    ensures Join(LowBits(w), LowBits(w >> 8), LowBits(w >> 16), LowBits(w >> 24),
                 LowBits(w >> 32), LowBits(w >> 40), LowBits(w >> 48), LowBits(w >> 56)) == w
  {
  }

  lemma JoinBack(x0: Word, x1: Word, x2: Word, x3: Word, x4: Word, x5: Word, x6: Word, x7: Word)
    ensures HostWord(LowByte(x0), LowByte(x1), LowByte(x2), LowByte(x3),
                     LowByte(x4), LowByte(x5), LowByte(x6), LowByte(x7)) ==
            Join(LowBits(x0), LowBits(x1), LowBits(x2), LowBits(x3),
                 LowBits(x4), LowBits(x5), LowBits(x6), LowBits(x7))
  {
    hide LowByte, LowBits, Join;
    ByteBack(x0);
    ByteBack(x1);
    ByteBack(x2);
    ByteBack(x3);
    ByteBack(x4);
    ByteBack(x5);
    ByteBack(x6);
    ByteBack(x7);
  }

  /** A word written to memory is read back. */
  lemma ReadWritten(w: Word)
    ensures Read(Write(w)) == w
  {
    hide LowByte, LowBits, Join, HostWord;
    JoinBack(w, w >> 8, w >> 16, w >> 24, w >> 32, w >> 40, w >> 48, w >> 56);
    BytesJoin(w);
  }

  lemma HostIsSound()
    ensures Sound(HOST)
  {
    forall w
      ensures |HOST.write(w)| == HOST.size && HOST.read(HOST.write(w)) == w
    {
      ReadWritten(w);
    }
  }

  lemma LoadedWord(b0: Byte, b1: Byte, b2: Byte, b3: Byte, b4: Byte, b5: Byte, b6: Byte, b7: Byte)
    ensures T.Reverse(HostWord(b0, b1, b2, b3, b4, b5, b6, b7)) == MessageWord(b0, b1, b2, b3, b4, b5, b6, b7)
  {
    SmallWord(b0);
    SmallWord(b1);
    SmallWord(b2);
    SmallWord(b3);
    SmallWord(b4);
    SmallWord(b5);
    SmallWord(b6);
    SmallWord(b7);
    T.ReverseReadsBigEndian(b0 as Word, b1 as Word, b2 as Word, b3 as Word,
                            b4 as Word, b5 as Word, b6 as Word, b7 as Word);
  }

  lemma LoadedAt(block: seq<Byte>, i: nat)
    requires |block| == 128 && i < 16
    ensures T.Reverse(WordAt(HOST, block, i)) == Words(MessageWord, block)[i]
  {
    hide T.Reverse, HostWord, MessageWord;
    LoadedWord(block[8 * i], block[8 * i + 1], block[8 * i + 2], block[8 * i + 3],
               block[8 * i + 4], block[8 * i + 5], block[8 * i + 6], block[8 * i + 7]);
  }

  lemma LoadedBlock(block: seq<Byte>)
    requires |block| == 128
    ensures T.Loaded(WordsOf(HOST, block)) == Words(MessageWord, block)
  {
    hide T.Reverse, HostWord, MessageWord, WordAt;
    forall i | 0 <= i < 16
      ensures T.Reverse(WordsOf(HOST, block)[i]) == Words(MessageWord, block)[i]
    {
      LoadedAt(block, i);
    }
  }

  /** The compression of FIPS 180-4 section 6.4.2 on the bytes of a block. */
  function Compression(k: seq<Word>): Compress<T.Regs>
    requires |k| == 80
  {
    (h: T.Regs, block: seq<Byte>) => if |block| == 128 then T.FipsCompress(k, h, Words(MessageWord, block)) else h
  }

  /** The coded schedule and rounds, over the words of the host, make that compression. */
  lemma CodedCompression(k: seq<Word>, h: T.Regs, block: seq<Byte>)
    requires |k| == 80 && |block| == 128
    ensures T.Coded(k).Valid() && T.Coded(k).rounds == 80
    ensures Compressed(HOST, T.Coded(k), T.Sum)(h, block) == Compression(k)(h, block)
  {
    hide RoundsTo, FullSchedule, T.Loaded, WordsOf, Words, T.Sum;
    LoadedBlock(block);
    T.CodedIsSpecified(k, WordsOf(HOST, block), h, 80);
  }

  /** The block transform, on a block in memory that may be the ring itself, is that compression. */
  method TransformBlock(k: seq<Word>, h: T.Regs, data: array<Byte>, ring: array<Byte>) returns (h': T.Regs)
    requires |k| == 80 && data.Length == 128 && ring.Length == 128
    modifies ring
    ensures h' == Compression(k)(h, old(data[..]))
  {
    ghost var block := data[..];
    HostIsSound();
    CodedCompression(k, h, block);
    var r := Transform(HOST, T.Coded(k), h, data, ring);
    h' := T.Sum(h, r);
  }

  /** Any message in any split: the hash computation of FIPS 180-4 sections 5.1.2 and 6.4. */
  method Hash(k: seq<Word>, initial: T.Regs, chunks: seq<seq<Byte>>) returns (state: T.Regs)
    requires |k| == 80
    ensures state == FoldBlocks(Compression(k), 128, initial,
                                Padded(Flat(chunks), 128, Sha2Stream.LengthField(true, |Flat(chunks)|)))
  {
    HostIsSound();
    state := Sha2Stream.Digest(HOST, T.Coded(k), T.Sum, true, initial, chunks);
    SameAsCoded(k, initial, Padded(Flat(chunks), 128, Sha2Stream.LengthField(true, |Flat(chunks)|)));
  }

  lemma SameAsCoded(k: seq<Word>, initial: T.Regs, m: seq<Byte>)
    requires |k| == 80
    ensures T.Coded(k).Valid()
    ensures FoldBlocks(Compressed(HOST, T.Coded(k), T.Sum), 128, initial, m) == FoldBlocks(Compression(k), 128, initial, m)
  {
    forall h, block | |block| == 128
      ensures Compressed(HOST, T.Coded(k), T.Sum)(h, block) == Compression(k)(h, block)
    {
      CodedCompression(k, h, block);
    }
    SameFold(Compressed(HOST, T.Coded(k), T.Sum), Compression(k), 128, initial, m);
  }
}
