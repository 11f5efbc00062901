/** The bytes of a 64-byte block as sixteen 32-bit words. */
module BlockWords {
  import opened BlockStream
  import opened MessageSchedule

  type Word = bv32

  /** Four bytes of memory as a little-endian host reads them. */
  function HostWord(b0: Byte, b1: Byte, b2: Byte, b3: Byte): Word {
    (b0 as Word) | ((b1 as Word) << 8) | ((b2 as Word) << 16) | ((b3 as Word) << 24)
  }

  /** Four bytes of a message as FIPS 180-4 section 3.1 reads them. */
  function MessageWord(b0: Byte, b1: Byte, b2: Byte, b3: Byte): Word {
    ((b0 as Word) << 24) | ((b1 as Word) << 16) | ((b2 as Word) << 8) | (b3 as Word)
  }

  function Words(read: (Byte, Byte, Byte, Byte) -> Word, block: seq<Byte>): (w: seq<Word>)
    requires |block| == 64
    ensures |w| == 16
  {
    seq(16, i requires 0 <= i < 16 => read(block[4 * i], block[4 * i + 1], block[4 * i + 2], block[4 * i + 3]))
  }

  function Read(s: seq<Byte>): Word {
    if |s| == 4 then HostWord(s[0], s[1], s[2], s[3]) else 0
  }

  function LowBits(w: Word): Word {
    w & 0xff
  }

  function LowByte(w: Word): Byte {
    SmallBits(LowBits(w));
    LowBits(w) as int
  }

  function Write(w: Word): seq<Byte> {
    [LowByte(w), LowByte(w >> 8), LowByte(w >> 16), LowByte(w >> 24)]
  }

  const HOST: Host<Word> := Host(4, Read, Write)

  lemma SmallWord(b: Byte)
    ensures b as Word <= 0xff
  {
  }

  lemma SmallBits(w: Word)
    ensures LowBits(w) <= 0xff && 0 <= LowBits(w) as int < 256
  {
  }

  lemma IntAndBack(x: Word)
    requires x <= 0xff
    ensures (x as int) as Word == x && 0 <= x as int < 256
  {
  }

  lemma ByteBack(w: Word)
    ensures LowByte(w) as Word == LowBits(w)
  {
    hide LowBits;
    SmallBits(w);
    IntAndBack(LowBits(w));
  }

  lemma BytesJoin(w: Word)
    ensures LowBits(w) | (LowBits(w >> 8) << 8) | (LowBits(w >> 16) << 16) | (LowBits(w >> 24) << 24) == w
  {
  }

  /** A word written to memory is read back. */
  lemma ReadWritten(w: Word)
    ensures Read(Write(w)) == w
  {
    hide LowByte, LowBits;
    ByteBack(w);
    ByteBack(w >> 8);
    ByteBack(w >> 16);
    ByteBack(w >> 24);
    BytesJoin(w);
  }

  /** A conversion that turns every word of the host into that of the message turns the words of a block into those. */
  lemma LoadedWords(load: Word -> Word, block: seq<Byte>)
    requires |block| == 64 && forall b0, b1, b2, b3 :: load(HostWord(b0, b1, b2, b3)) == MessageWord(b0, b1, b2, b3)
    ensures forall i :: 0 <= i < 16 ==> load(WordsOf(HOST, block)[i]) == Words(MessageWord, block)[i]
  {
    hide HostWord, MessageWord;
    forall i | 0 <= i < 16
      ensures load(WordsOf(HOST, block)[i]) == Words(MessageWord, block)[i]
    {
      assert WordAt(HOST, block, i) == HostWord(block[4 * i], block[4 * i + 1], block[4 * i + 2], block[4 * i + 3]);
    }
  }

  lemma HostIsSound()
    ensures Sound(HOST)
  {
    forall w
      ensures |HOST.write(w)| == HOST.size && HOST.read(HOST.write(w)) == w
    {
      ReadWritten(w);
    }
  }
}
