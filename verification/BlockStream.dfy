/**
 Messages cut into blocks: the fold of a compression function over the whole blocks of a
 message, the bytes left over, and the padding that ends a message.
 */
module BlockStream {
  import opened Bytes

  type Byte = x: int | 0 <= x < 256

  /** A compression function: a state and one block give the next state. */
  type Compress<!S> = (S, seq<Byte>) -> S

  /** The state after every whole block of m. */
  ghost function FoldBlocks<S>(f: Compress<S>, b: nat, s: S, m: seq<Byte>): S
    requires b > 0
    decreases |m|
  {
    if |m| < b then s else FoldBlocks(f, b, f(s, m[..b]), m[b..])
  }

  /** The bytes after the last whole block. */
  ghost function Tail(b: nat, m: seq<Byte>): seq<Byte>
    requires b > 0
    decreases |m|
  {
    if |m| < b then m else Tail(b, m[b..])
  }

  lemma DropAppend(m: seq<Byte>, d: seq<Byte>, b: nat)
    requires b <= |m|
    ensures (m + d)[..b] == m[..b] && (m + d)[b..] == m[b..] + d
  {
  }

  /** Blocks folded so far can be forgotten: only the state and the tail matter. */
  lemma {:induction false} Absorb<S>(f: Compress<S>, b: nat, s: S, m: seq<Byte>, d: seq<Byte>)
    requires b > 0
    ensures FoldBlocks(f, b, s, m + d) == FoldBlocks(f, b, FoldBlocks(f, b, s, m), Tail(b, m) + d)
    ensures Tail(b, m + d) == Tail(b, Tail(b, m) + d)
    decreases |m|
  {
    if |m| >= b {
      DropAppend(m, d, b);
      Absorb(f, b, f(s, m[..b]), m[b..], d);
    }
  }

  /** Bytes that do not complete a block are kept; bytes that complete one are folded. */
  lemma Fill<S>(f: Compress<S>, b: nat, s: S, m: seq<Byte>, d: seq<Byte>)
    requires b > 0 && |Tail(b, m)| + |d| <= b
    ensures |Tail(b, m)| + |d| < b ==>
              FoldBlocks(f, b, s, m + d) == FoldBlocks(f, b, s, m) && Tail(b, m + d) == Tail(b, m) + d
    ensures |Tail(b, m)| + |d| == b ==>
              FoldBlocks(f, b, s, m + d) == f(FoldBlocks(f, b, s, m), Tail(b, m) + d) && Tail(b, m + d) == []
  {
    Absorb(f, b, s, m, d);
    var x := Tail(b, m) + d;
    if |x| == b {
      assert x[..b] == x && x[b..] == [];
    }
  }

  /** Compression functions that agree on blocks fold alike. */
  lemma {:induction false} SameFold<S>(f: Compress<S>, g: Compress<S>, b: nat, s: S, m: seq<Byte>)
    requires b > 0 && forall h, block :: |block| == b ==> f(h, block) == g(h, block)
    ensures FoldBlocks(f, b, s, m) == FoldBlocks(g, b, s, m)
    decreases |m|
  {
    if |m| >= b {
      SameFold(f, g, b, f(s, m[..b]), m[b..]);
    }
  }

  /** Block lengths in use. */
  predicate Length(b: nat) {
    b == 64 || b == 128
  }

  lemma ModDrop(b: nat, n: nat)
    requires Length(b) && b <= n
    ensures (n - b) % b == n % b
  {
  }

  lemma {:induction false} TailLength(b: nat, m: seq<Byte>)
    requires Length(b)
    ensures |Tail(b, m)| == |m| % b
    decreases |m|
  {
    if |m| >= b {
      TailLength(b, m[b..]);
      ModDrop(b, |m|);
    }
  }

  // ---- Padding ----

  function Zeros(n: nat): seq<Byte> {
    seq(n, _ => 0)
  }

  /** The n low-order bytes of x, the most significant first. */
  function BigEndian(x: nat, n: nat): (r: seq<Byte>)
    ensures |r| == n
  {
    if n == 0 then [] else BigEndian(x / 256, n - 1) + [x % 256]
  }

  /** The n low-order bytes of x, the least significant first. */
  function LittleEndian(x: nat, n: nat): (r: seq<Byte>)
    ensures |r| == n
  {
    if n == 0 then [] else [x % 256] + LittleEndian(x / 256, n - 1)
  }

  function Power256(n: nat): nat {
    if n == 0 then 1 else 256 * Power256(n - 1)
  }

  lemma {:induction false} PowerIsPositive(n: nat)
    ensures Power256(n) > 0
  {
    if n > 0 { PowerIsPositive(n - 1); }
  }

  lemma DivideTwice(x: nat, p: nat)
    requires p > 0
    ensures x / 256 / p == x / (256 * p)
  {
    var q, r := x / 256, x % 256;
    var a, b := q / p, q % p;
    assert q == p * a + b;
    assert x == 256 * p * a + (256 * b + r);
    assert 256 * b + r < 256 * p;
    QuotientIs(x, 256 * p, a, 256 * b + r);
  }

  /** The byte of weight 256^(n - 1 - i) is at index i. */
  lemma {:induction false} BigEndianByte(x: nat, n: nat, i: nat)
    requires i < n
    ensures Power256(n - 1 - i) > 0 && BigEndian(x, n)[i] == x / Power256(n - 1 - i) % 256
  {
    PowerIsPositive(n - 1 - i);
    if i < n - 1 {
      BigEndianByte(x / 256, n - 1, i);
      DivideTwice(x, Power256(n - 2 - i));
    }
  }

  /** Only as many bytes of x matter as there are. */
  lemma {:induction false} BigEndianModulo(x: nat, n: nat)
    ensures Power256(n) > 0 && BigEndian(x % Power256(n), n) == BigEndian(x, n)
  {
    PowerIsPositive(n);
    if n > 0 {
      var p := Power256(n - 1);
      PowerIsPositive(n - 1);
      RemainderParts(x, p);
      BigEndianModulo(x / 256, n - 1);
    }
  }

  lemma {:induction false} LittleEndianModulo(x: nat, n: nat)
    ensures Power256(n) > 0 && LittleEndian(x % Power256(n), n) == LittleEndian(x, n)
  {
    PowerIsPositive(n);
    if n > 0 {
      var p := Power256(n - 1);
      PowerIsPositive(n - 1);
      RemainderParts(x, p);
      LittleEndianModulo(x / 256, n - 1);
    }
  }

  lemma RemainderParts(x: nat, p: nat)
    requires p > 0
    ensures x % (256 * p) / 256 == x / 256 % p && x % (256 * p) % 256 == x % 256
  {
    var q, r := x / 256, x % 256;
    var a, b := q / p, q % p;
    Quotient(q, p);
    assert x == 256 * p * a + (256 * b + r);
    QuotientIs(x, 256 * p, a, 256 * b + r);
    Quotient(x, 256 * p);
    assert x % (256 * p) == 256 * b + r;
  }

  /** The byte of weight 256^i is at index i. */
  lemma {:induction false} LittleEndianByte(x: nat, n: nat, i: nat)
    requires i < n
    ensures Power256(i) > 0 && LittleEndian(x, n)[i] == x / Power256(i) % 256
  {
    PowerIsPositive(i);
    if i > 0 {
      LittleEndianByte(x / 256, n - 1, i - 1);
      DivideTwice(x, Power256(i - 1));
    }
  }

  /** The number of zero bytes between the 0x80 byte and a length field of l bytes. */
  function ZeroCount(b: nat, l: nat, n: nat): nat
    requires l < b
  {
    (b - l - 1 - n) % b
  }

  /** It is the least count that ends the message on a block boundary. */
  lemma ZeroCountIsLeast(b: nat, l: nat, n: nat, k: nat)
    requires Length(b) && l < b
    ensures (n + 1 + ZeroCount(b, l, n) + l) % b == 0
    ensures (n + 1 + k + l) % b == 0 ==> ZeroCount(b, l, n) <= k
  {
  }

  lemma ZeroCountFits(b: nat, l: nat, n: nat)
    requires Length(b) && l < b
    ensures n % b + 1 <= b - l ==> ZeroCount(b, l, n) == b - l - 1 - n % b
    ensures n % b + 1 > b - l ==> ZeroCount(b, l, n) == (b - 1 - n % b) + (b - l)
  {
  }

  /** A message, a 0x80 byte, zeros to fill the block and the length field. */
  ghost function Padded(m: seq<Byte>, b: nat, length: seq<Byte>): seq<Byte>
    requires |length| < b
  {
    m + ([0x80] + Zeros(ZeroCount(b, |length|, |m|)) + length)
  }

  /** The state after a padded message, from the state and the tail before the padding. */
  lemma PaddedFolds<S>(f: Compress<S>, b: nat, s: S, m: seq<Byte>, length: seq<Byte>)
    requires Length(b) && |length| < b
    ensures FoldBlocks(f, b, s, Padded(m, b, length)) ==
            FoldBlocks(f, b, FoldBlocks(f, b, s, m), Tail(b, m) + ([0x80] + Zeros(ZeroCount(b, |length|, |m|)) + length))
  {
    Absorb(f, b, s, m, [0x80] + Zeros(ZeroCount(b, |length|, |m|)) + length);
  }

  lemma OneBlock<S>(f: Compress<S>, b: nat, s: S, x: seq<Byte>)
    requires b > 0 && |x| == b
    ensures FoldBlocks(f, b, s, x) == f(s, x)
  {
    assert x[..b] == x && x[b..] == [];
  }

  lemma TwoBlocks<S>(f: Compress<S>, b: nat, s: S, x: seq<Byte>, y: seq<Byte>)
    requires b > 0 && |x| == b && |y| == b
    ensures FoldBlocks(f, b, s, x + y) == f(f(s, x), y)
  {
    assert (x + y)[..b] == x && (x + y)[b..] == y;
    OneBlock(f, b, f(s, x), y);
  }

  /** The one-block ending. */
  lemma ShortEnding<S>(f: Compress<S>, b: nat, s: S, m: seq<Byte>, length: seq<Byte>)
    requires Length(b) && |length| < b && |m| % b + 1 <= b - |length|
    ensures |Tail(b, m)| == |m| % b
    ensures FoldBlocks(f, b, s, Padded(m, b, length)) ==
            f(FoldBlocks(f, b, s, m), Tail(b, m) + [0x80] + Zeros(b - |length| - 1 - |m| % b) + length)
  {
    TailLength(b, m);
    PaddedFolds(f, b, s, m, length);
    ZeroCountFits(b, |length|, |m|);
    var tail, zeros := Tail(b, m), Zeros(b - |length| - 1 - |m| % b);
    assert tail + ([0x80] + zeros + length) == tail + [0x80] + zeros + length;
    OneBlock(f, b, FoldBlocks(f, b, s, m), tail + [0x80] + zeros + length);
  }

  lemma SplitZeros(tail: seq<Byte>, x: nat, y: nat, length: seq<Byte>)
    ensures tail + ([0x80] + Zeros(x + y) + length) == (tail + [0x80] + Zeros(x)) + (Zeros(y) + length)
  {
  }

  /** The two-block ending. */
  lemma LongEnding<S>(f: Compress<S>, b: nat, s: S, m: seq<Byte>, length: seq<Byte>)
    requires Length(b) && |length| < b && |m| % b + 1 > b - |length|
    ensures |Tail(b, m)| == |m| % b
    ensures FoldBlocks(f, b, s, Padded(m, b, length)) ==
            f(f(FoldBlocks(f, b, s, m), Tail(b, m) + [0x80] + Zeros(b - 1 - |m| % b)), Zeros(b - |length|) + length)
  {
    TailLength(b, m);
    PaddedFolds(f, b, s, m, length);
    ZeroCountFits(b, |length|, |m|);
    var x, y := b - 1 - |m| % b, b - |length|;
    SplitZeros(Tail(b, m), x, y, length);
    TwoBlocks(f, b, FoldBlocks(f, b, s, m), Tail(b, m) + [0x80] + Zeros(x), Zeros(y) + length);
  }

  /** Store data in the buffer, starting at an index. */
  method Copy(buffer: array<Byte>, at: nat, data: seq<Byte>)
    requires at + |data| <= buffer.Length
    modifies buffer
    ensures buffer[..at] == old(buffer[..at]) && buffer[at..at + |data|] == data
    ensures buffer[at + |data|..] == old(buffer[at + |data|..])
  {
    for i := 0 to |data|
      invariant forall k :: 0 <= k < i ==> buffer[at + k] == data[k]
      invariant buffer[..at] == old(buffer[..at]) && buffer[at + i..] == old(buffer[at + i..])
    {
      buffer[at + i] := data[i];
    }
  }
}
