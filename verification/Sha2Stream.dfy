/**
 The buffered update and the padding of SHA-256 (64-byte blocks, one 64-bit count) and of
 SHA-384 and SHA-512 (128-byte blocks, a count of two 64-bit words), around the block transform
 that has its message schedule in the buffer.
 */
module Sha2Stream {
  import opened BlockStream
  import opened MessageSchedule
  import opened Sequences

  const WORD: nat := 0x1_0000_0000_0000_0000

  function Modulus(wide: bool): nat {
    if wide then WORD * WORD else WORD
  }

  /** The value of the count. */
  function Bits(wide: bool, hi: nat, lo: nat): nat {
    if wide then hi * WORD + lo else lo
  }

  /** The carry out of the low word is seen as the sum being smaller than what was added. */
  function HighAfter(hi: nat, lo: nat, n: nat): nat {
    if (lo + n) % WORD < n then (hi + 1) % WORD else hi
  }

  lemma CarryIsExact(hi: nat, lo: nat, n: nat)
    requires hi < WORD && lo < WORD && n < WORD
    ensures HighAfter(hi, lo, n) * WORD + (lo + n) % WORD == (hi * WORD + lo + n) % (WORD * WORD)
  {
    if lo + n < WORD {
      assert (lo + n) % WORD == lo + n;
    } else {
      assert (lo + n) % WORD == lo + n - WORD;
    }
  }

  lemma CountAdds(wide: bool, hi: nat, lo: nat, bits: nat, n: nat)
    requires hi < WORD && lo < WORD && n < WORD && Bits(wide, hi, lo) == bits % Modulus(wide)
    ensures Bits(wide, if wide then HighAfter(hi, lo, n) else hi, (lo + n) % WORD) == (bits + n) % Modulus(wide)
  {
    if wide {
      CarryIsExact(hi, lo, n);
      ModAdd(bits, n, WORD * WORD);
    } else {
      ModAdd(bits, n, WORD);
    }
  }

  lemma ModAdd(x: nat, n: nat, m: nat)
    requires m == WORD || m == WORD * WORD
    ensures (x % m + n) % m == (x + n) % m
  {
  }

  /** The count gives the number of bytes in the buffer. */
  lemma UsedSpace(wide: bool, hi: nat, lo: nat, n: nat, b: nat)
    requires hi < WORD && lo < WORD && Bits(wide, hi, lo) == (8 * n) % Modulus(wide) && Length(b)
    ensures (lo / 8) % b == n % b
  {
    LowWord(wide, hi, lo, n);
    LowBytes(n, b);
  }

  lemma LowWord(wide: bool, hi: nat, lo: nat, n: nat)
    requires hi < WORD && lo < WORD && Bits(wide, hi, lo) == (8 * n) % Modulus(wide)
    ensures lo == (8 * n) % WORD
  {
  }

  lemma LowBytes(n: nat, b: nat)
    requires Length(b)
    ensures ((8 * n) % WORD / 8) % b == n % b
  {
    EighthOf(n);
    LowBits(n, b);
  }

  lemma EighthOf(n: nat)
    ensures (8 * n) % WORD / 8 == n % 0x2000_0000_0000_0000
  {
    assert (8 * n) % WORD == 8 * (n % 0x2000_0000_0000_0000);
  }

  lemma LowBits(n: nat, b: nat)
    requires Length(b)
    ensures n % 0x2000_0000_0000_0000 % b == n % b
  {
  }

  // ---- The length field ----

  function LengthBytes(wide: bool): nat {
    if wide then 16 else 8
  }

  /** As FIPS 180-4 sections 5.1.1 and 5.1.2 ask: the length in bits, most significant byte first. */
  ghost function LengthField(wide: bool, n: nat): seq<Byte> {
    BigEndian((8 * n) % Modulus(wide), LengthBytes(wide))
  }

  /** Byte i of the length field is the byte of that weight of the length in bits. */
  lemma LengthFieldByte(wide: bool, n: nat, i: nat)
    requires i < LengthBytes(wide)
    ensures |LengthField(wide, n)| == LengthBytes(wide) && Power256(LengthBytes(wide) - 1 - i) > 0
    ensures LengthField(wide, n)[i] == 8 * n / Power256(LengthBytes(wide) - 1 - i) % 256
  {
    var l := LengthBytes(wide);
    PowersAre();
    BigEndianModulo(8 * n, l);
    BigEndianByte(8 * n, l, i);
  }

  lemma PowersAre()
    ensures Power256(8) == WORD && Power256(16) == WORD * WORD
  {
    assert Power256(12) == Power256(8) * 0x1_0000_0000;
  }

  /** Two words stored one after the other. */
  function Stored(wide: bool, hi: nat, lo: nat): seq<Byte> {
    if wide then BigEndian(hi, 8) + BigEndian(lo, 8) else BigEndian(lo, 8)
  }

  lemma {:induction false} JoinWords(hi: nat, lo: nat, k: nat, n: nat)
    requires lo < Power256(n)
    ensures BigEndian(hi, k) + BigEndian(lo, n) == BigEndian(hi * Power256(n) + lo, k + n)
  {
    if n == 0 {
      assert BigEndian(hi, k) + [] == BigEndian(hi, k);
    } else {
      JoinWords(hi, lo / 256, k, n - 1);
      ShiftByte(hi, lo, Power256(n - 1));
    }
  }

  lemma ShiftByte(hi: nat, lo: nat, p: nat)
    ensures (hi * (256 * p) + lo) / 256 == hi * p + lo / 256
    ensures (hi * (256 * p) + lo) % 256 == lo % 256
  {
    var x := hi * p;
    assert hi * (256 * p) == 256 * x;
  }

  lemma StoredIsLength(wide: bool, hi: nat, lo: nat, n: nat)
    requires hi < WORD && lo < WORD && Bits(wide, hi, lo) == (8 * n) % Modulus(wide)
    ensures Stored(wide, hi, lo) == LengthField(wide, n)
  {
    assert Power256(8) == WORD;
    JoinWords(hi, lo, 8, 8);
  }

  class Sha2<Word(!new), Regs> {
    const host: Host<Word>
    const alg: Algorithm<Word, Regs>
    const sum: (Regs, Regs) -> Regs
    const wide: bool
    const b: nat
    const initial: Regs
    const buffer: array<Byte>
    var state: Regs
    var hi: nat
    var lo: nat
    ghost const f: Compress<Regs>
    ghost var message: seq<Byte>

    /** The fixed parts: f is what the block transform does. */
    ghost predicate Ready() {
      && Sound(host) && alg.Valid() && f == Compressed(host, alg, sum)
      && b == (if wide then 128 else 64) && b == 16 * host.size && buffer.Length == b
    }

    /** The length of the message is counted, its whole blocks are in the state, the rest is in the buffer. */
    ghost predicate Valid()
      reads this, buffer
    {
      && Ready()
      && hi < WORD && lo < WORD
      && Bits(wide, hi, lo) == (8 * |message|) % Modulus(wide)
      && state == FoldBlocks(f, b, initial, message)
      && |Tail(b, message)| == |message| % b
      && buffer[..|message| % b] == Tail(b, message)
    }

    constructor (host: Host<Word>, alg: Algorithm<Word, Regs>, sum: (Regs, Regs) -> Regs, wide: bool, initial: Regs)
      requires Sound(host) && alg.Valid() && 16 * host.size == (if wide then 128 else 64)
      ensures Valid() && message == [] && fresh(buffer)
      ensures f == Compressed(host, alg, sum) && this.wide == wide && this.initial == initial
    {
      this.host, this.alg, this.sum, this.f := host, alg, sum, Compressed(host, alg, sum);
      this.wide, this.initial, this.state := wide, initial, initial;
      b := if wide then 128 else 64;
      buffer := new Byte[if wide then 128 else 64](i => 0);
      hi, lo, message := 0, 0, [];
    }

    method AddBits(n: nat)
      requires hi < WORD && lo < WORD && n < WORD
      modifies `hi, `lo
      ensures hi == (if wide then HighAfter(old(hi), old(lo), n) else old(hi)) && lo == (old(lo) + n) % WORD
    {
      lo := (lo + n) % WORD;
      if wide && lo < n {
        hi := (hi + 1) % WORD;
      }
    }

    /** One block, in the buffer itself or elsewhere.  The buffer is the ring of the schedule. */
    method Transform(data: array<Byte>)
      requires Ready() && data.Length == b
      modifies `state, buffer
      ensures state == f(old(state), old(data[..]))
    {
      var r := MessageSchedule.Transform(host, alg, state, data, buffer);
      state := sum(state, r);
    }

    /** Count and keep bytes that do not complete a block. */
    method Keep(used: nat, data: seq<Byte>)
      requires Valid() && used == |message| % b && used + |data| < b
      modifies `hi, `lo, `message, buffer
      ensures Valid() && message == old(message) + data
    {
      Fill(f, b, initial, message, data);
      CountAdds(wide, hi, lo, 8 * |message|, 8 * |data|);
      Copy(buffer, used, data);
      assert buffer[..used + |data|] == buffer[..used] + buffer[used..used + |data|];
      AddBits(8 * |data|);
      message := message + data;
      TailLength(b, message);
    }

    /** Count and fold bytes that complete a block: those already in the buffer, then data. */
    method Complete(used: nat, data: seq<Byte>, block: array<Byte>)
      requires Valid() && used == |message| % b && used + |data| == b
      requires block[..] == Tail(b, message) + data
      modifies `hi, `lo, `message, `state, buffer
      ensures Valid() && message == old(message) + data && |message| % b == 0
    {
      Fill(f, b, initial, message, data);
      CountAdds(wide, hi, lo, 8 * |message|, 8 * |data|);
      AddBits(8 * |data|);
      Transform(block);
      message := message + data;
      TailLength(b, message);
    }

    /** Top the buffer up and fold it. */
    method FillUp(used: nat, data: seq<Byte>)
      requires Valid() && used == |message| % b && used + |data| == b
      modifies `hi, `lo, `message, `state, buffer
      ensures Valid() && message == old(message) + data && |message| % b == 0
    {
      ghost var tail := buffer[..used];
      Copy(buffer, used, data);
      assert buffer[..] == tail + data by {
        assert buffer[..] == buffer[..used] + buffer[used..used + |data|];
      }
      Complete(used, data, buffer);
    }

    /** A block in the memory of the caller. */
    method Memory(block: seq<Byte>) returns (data: array<Byte>)
      ensures fresh(data) && data[..] == block
    {
      data := new Byte[|block|](_ => 0);
      Copy(data, 0, block);
      assert data[..] == data[0..|block|];
    }

    /** Any bytes, in any split into calls. */
    method Block(s: seq<Byte>)
      requires Valid()
      modifies this, buffer
      ensures Valid() && message == old(message) + s
    {
      if |s| == 0 {
        return;
      }
      var data := s;
      UsedSpace(wide, hi, lo, |message|, b);
      var used := (lo / 8) % b;
      if used > 0 {
        var free := b - used;
        if |data| >= free {
          FillUp(used, data[..free]);
          data := data[free..];
        } else {
          Keep(used, data);
          return;
        }
      }
      while |data| >= b
        invariant Valid() && |message| % b == 0
        invariant message + data == old(message) + s
        decreases |data|
      {
        assert message + data == (message + data[..b]) + data[b..];
        var block := Memory(data[..b]);
        Complete(0, data[..b], block);
        data := data[b..];
      }
      if |data| > 0 {
        Keep(0, data);
      }
    }

    method Zero(from: nat, to: nat)
      requires from <= to <= buffer.Length
      modifies buffer
      ensures buffer[..from] == old(buffer[..from]) && buffer[from..to] == Zeros(to - from)
    {
      for i := from to to
        invariant buffer[..from] == old(buffer[..from])
        invariant forall k :: from <= k < i ==> buffer[k] == 0
      {
        buffer[i] := 0;
      }
    }

    /** The 0x80 byte and the zeros before the length; if the length does not fit, one block more. */
    method PadTail(at: nat, short: nat)
      requires Valid() && at == |message| % b && short == b - LengthBytes(wide)
      modifies `state, buffer
      ensures at + 1 <= short ==>
                state == old(state) && buffer[..short] == Tail(b, message) + [0x80] + Zeros(short - at - 1)
      ensures at + 1 > short ==>
                state == f(old(state), Tail(b, message) + [0x80] + Zeros(b - 1 - at)) && buffer[..short] == Zeros(short)
    {
      hide FoldBlocks, Tail, Sound, Bits, Modulus, BigEndian;
      var used := at;
      ghost var tail := buffer[..at];
      if used > 0 {
        buffer[used] := 0x80;
        used := used + 1;
        assert buffer[..used] == tail + [0x80];
        if used <= short {
          Zero(used, short);
          assert buffer[..short] == buffer[..used] + buffer[used..short];
        } else {
          if used < b {
            Zero(used, b);
          }
          assert buffer[..] == tail + [0x80] + Zeros(b - used) by {
            assert buffer[..] == buffer[..used] + buffer[used..b];
          }
          Transform(buffer);
          ZeroAll(if wide then b - 2 else short, short);
        }
      } else {
        Zero(0, short);
        buffer[0] := 0x80;
        assert buffer[..short] == tail + [0x80] + Zeros(short - 1);
      }
    }

    method ZeroAll(to: nat, ghost short: nat)
      requires short <= to <= buffer.Length
      modifies buffer
      ensures buffer[..short] == Zeros(short)
    {
      Zero(0, to);
      assert buffer[..short] == buffer[0..to][..short];
    }

    method Done()
      requires Valid()
      modifies this, buffer
      ensures state == FoldBlocks(f, b, initial, Padded(old(message), b, LengthField(wide, |old(message)|)))
    {
      hide FoldBlocks, Tail, Padded, LengthField, Sound, Zeros, Bits, Modulus, BigEndian;
      UsedSpace(wide, hi, lo, |message|, b);
      StoredIsLength(wide, hi, lo, |message|);
      var used := (lo / 8) % b;
      var bitcount := Stored(wide, hi, lo);
      var short := b - LengthBytes(wide);
      PadTail(used, short);
      ghost var padded := buffer[..short];
      Copy(buffer, short, bitcount);
      assert buffer[..] == padded + bitcount by {
        assert buffer[..] == buffer[..short] + buffer[short..short + |bitcount|];
      }
      Transform(buffer);
      if used + 1 <= short {
        ShortEnding(f, b, initial, message, bitcount);
      } else {
        LongEnding(f, b, initial, message, bitcount);
      }
    }
  }

  /** The whole run: any message, in any split into calls. */
  method Digest<Word(!new), Regs>(host: Host<Word>, alg: Algorithm<Word, Regs>, sum: (Regs, Regs) -> Regs,
                                  wide: bool, initial: Regs, chunks: seq<seq<Byte>>)
    returns (state: Regs)
    requires Sound(host) && alg.Valid() && 16 * host.size == (if wide then 128 else 64)
    ensures
      var b := if wide then 128 else 64;
      state == FoldBlocks(Compressed(host, alg, sum), b, initial,
                          Padded(Flat(chunks), b, LengthField(wide, |Flat(chunks)|)))
  {
    var sha := new Sha2(host, alg, sum, wide, initial);
    for i := 0 to |chunks|
      invariant sha.Valid() && fresh(sha) && fresh(sha.buffer) && sha.message == Flat(chunks[..i])
      invariant sha.f == Compressed(host, alg, sum) && sha.wide == wide && sha.initial == initial
    {
      FlatNext(chunks, i);
      sha.Block(chunks[i]);
    }
    assert chunks[..|chunks|] == chunks;
    sha.Done();
    state := sha.state;
  }
}
