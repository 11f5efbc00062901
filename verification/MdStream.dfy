/**
 The buffered update and the padding of MD5 and SHA-1: 64-byte blocks and a count of bits in
 two 32-bit words, for any compression function.  The two differ in how they count and in how they pad.
 */
module MdStream {
  import opened BlockStream
  import opened Sequences

  const WORD: nat := 0x1_0000_0000

  // ---- Counting ----

  /** The MD5 count: the carry is seen as the sum being smaller than what was added. */
  function Md5High(count0: nat, count1: nat, n: nat): nat {
    var low := 8 * n % WORD;
    (count1 + (if (count0 + low) % WORD < low then 1 else 0) + n % WORD / 0x2000_0000) % WORD
  }

  /** The SHA-1 count: the high word changes only if the low word wraps. */
  function Sha1High(count0: nat, count1: nat, n: nat): nat {
    if (count0 + 8 * n) % WORD < count0 then (count1 + n / 0x2000_0000 + 1) % WORD else count1
  }

  /** The low word is that of n bytes in bits, and the high word is behind by lost. */
  ghost predicate Behind(count0: nat, count1: nat, n: nat, lost: nat) {
    count0 == 8 * n % WORD && count1 < WORD && (count1 + lost) % WORD == 8 * n / WORD % WORD
  }

  /** What one call makes the SHA-1 count lose of the high word. */
  function LostIn(count0: nat, n: nat): nat {
    if (count0 + 8 * n) % WORD < count0 then 0 else n / 0x2000_0000
  }

  /** The bits of n bytes modulo 2^64, less lost times 2^32. */
  function Bits(n: nat, lost: nat): nat {
    (8 * n / WORD - lost) % WORD * WORD + 8 * n % WORD
  }

  lemma BitsOf(count0: nat, count1: nat, n: nat, lost: nat)
    requires Behind(count0, count1, n, lost)
    ensures count1 * WORD + count0 == Bits(n, lost)
  {
    ModLess(8 * n / WORD, lost, count1);
  }

  lemma ModLess(high: nat, lost: nat, count1: nat)
    requires count1 < WORD && (count1 + lost) % WORD == high % WORD
    ensures (high - lost) % WORD == count1
  {
  }

  /** With nothing lost that is the length the standards ask for. */
  lemma BitsExact(n: nat)
    ensures Bits(n, 0) == 8 * n % (WORD * WORD)
  {
    HighPart(8 * n / WORD, 8 * n % WORD);
  }

  lemma HighPart(h: nat, l: nat)
    requires l < WORD
    ensures h % WORD * WORD + l == (h * WORD + l) % (WORD * WORD)
  {
  }

  lemma LostMatters(n: nat, lost: nat)
    ensures Bits(n, lost) == Bits(n, 0) <==> lost % WORD == 0
  {
    SameHigh(8 * n / WORD, lost);
  }

  lemma SameHigh(high: nat, lost: nat)
    ensures (high - lost) % WORD == high % WORD <==> lost % WORD == 0
  {
  }

  /** The carry into the high word. */
  function Carry(count0: nat, low: nat): nat {
    if count0 + low < WORD then 0 else 1
  }

  lemma HighAdds(m: nat, n: nat)
    ensures 8 * (m + n) / WORD == 8 * m / WORD + (n / 0x2000_0000 + Carry(8 * m % WORD, 8 * n % WORD))
  {
    assert 8 * n / WORD == n / 0x2000_0000;
  }

  /** The comparisons that the two count updates make. */
  lemma CarrySeen(count0: nat, low: nat)
    requires count0 < WORD && low < WORD
    ensures (count0 + low) % WORD < low <==> Carry(count0, low) == 1
    ensures (count0 + low) % WORD < count0 <==> Carry(count0, low) == 1
  {
    assert (count0 + low) % WORD == if count0 + low < WORD then count0 + low else count0 + low - WORD;
  }

  lemma ModThrough(a: nat, b: nat, h: nat, k: nat)
    requires (a + b) % WORD == h % WORD
    ensures ((a + k) % WORD + b) % WORD == (h + k) % WORD
  {
    ModLeft(a + k, b);
    ModLeft(a + b, k);
    ModLeft(h, k);
  }

  lemma ModLeft(x: nat, y: nat)
    ensures (x % WORD + y) % WORD == (x + y) % WORD
  {
  }

  lemma ModThroughLost(a: nat, b: nat, h: nat, k: nat)
    requires (a + b) % WORD == h % WORD
    ensures (a + (b + k)) % WORD == (h + k) % WORD
  {
    ModLeft(a + b, k);
    ModLeft(h, k);
  }

  lemma Md5HighIs(count0: nat, count1: nat, n: nat)
    requires count0 < WORD && n < WORD
    ensures Md5High(count0, count1, n) == (count1 + (n / 0x2000_0000 + Carry(count0, 8 * n % WORD))) % WORD
  {
    CarrySeen(count0, 8 * n % WORD);
  }

  /** The MD5 count is exact modulo 2^64. */
  lemma Md5CountIsExact(count0: nat, count1: nat, m: nat, n: nat)
    requires Behind(count0, count1, m, 0) && n < WORD
    ensures Behind((count0 + 8 * n % WORD) % WORD, Md5High(count0, count1, n), m + n, 0)
  {
    hide Carry, Md5High;
    var k := n / 0x2000_0000 + Carry(count0, 8 * n % WORD);
    Md5HighIs(count0, count1, n);
    HighAdds(m, n);
    LowAdds(m, n);
    ModThrough(count1, 0, 8 * m / WORD, k);
  }

  lemma Sha1HighIs(count0: nat, count1: nat, n: nat)
    requires count0 < WORD
    ensures
      var k := n / 0x2000_0000 + Carry(count0, 8 * n % WORD);
      if Carry(count0, 8 * n % WORD) == 1 then Sha1High(count0, count1, n) == (count1 + k) % WORD && LostIn(count0, n) == 0
      else Sha1High(count0, count1, n) == count1 && LostIn(count0, n) == k
  {
    LowSum(count0, n);
    CarrySeen(count0, 8 * n % WORD);
  }

  /** The SHA-1 count falls behind by the high bits of every call after which the low word has not wrapped. */
  lemma Sha1CountFallsBehind(count0: nat, count1: nat, m: nat, n: nat, lost: nat)
    requires Behind(count0, count1, m, lost)
    ensures Behind((count0 + 8 * n) % WORD, Sha1High(count0, count1, n), m + n, lost + LostIn(count0, n))
  {
    hide Carry, Sha1High, LostIn;
    var k := n / 0x2000_0000 + Carry(count0, 8 * n % WORD);
    Sha1HighIs(count0, count1, n);
    LowSum(count0, n);
    HighAdds(m, n);
    LowAdds(m, n);
    ModThrough(count1, lost, 8 * m / WORD, k);
    ModThroughLost(count1, lost, 8 * m / WORD, k);
  }

  // ---- The index of the block loop, a 32-bit word ----

  /** The loop over the bytes of a call ends if they fit a 32-bit index together with what the buffer holds. */
  predicate Ends(index: nat, n: nat) {
    index + n < WORD
  }

  /** The test of the block loop. */
  predicate More(i: nat, n: nat) {
    (i + 63) % WORD < n
  }

  /** A longer call has the index wrap: the test holds at every index the loop takes. */
  lemma NeverEnds(index: nat, n: nat, i: nat)
    requires index < 64 && !Ends(index, n) && i < WORD && (i + index) % 64 == 0
    ensures More(i, n) && ((i + 64) % WORD + index) % 64 == 0
  {
    ModSixtyFour(i + 63);
    ModSixtyFour(i + 64);
  }

  lemma ModSixtyFour(x: nat)
    ensures x % WORD % 64 == x % 64
  {
  }

  lemma LowSum(count0: nat, n: nat)
    ensures (count0 + 8 * n) % WORD == (count0 + 8 * n % WORD) % WORD
  {
  }

  /** The count gives the number of bytes in the buffer. */
  lemma Index(count0: nat, n: nat)
    requires count0 == 8 * n % WORD
    ensures count0 / 8 % 64 == n % 64
  {
    assert 8 * n % WORD == 8 * (n % 0x2000_0000);
  }

  lemma LowAdds(m: nat, n: nat)
    ensures (8 * m % WORD + 8 * n % WORD) % WORD == 8 * (m + n) % WORD
  {
    ModBoth(8 * m, 8 * n);
  }

  lemma ModBoth(x: nat, y: nat)
    ensures (x % WORD + y % WORD) % WORD == (x + y) % WORD
  {
  }

  lemma OneMoreZero(m: seq<Byte>, k: nat)
    ensures m + Zeros(k) + [0] == m + Zeros(k + 1)
  {
  }

  lemma StopsAtZeroCount(n: nat, k: nat)
    requires k <= ZeroCount(64, 8, n)
    ensures (n + 1 + k) % 64 == 56 <==> k == ZeroCount(64, 8, n)
  {
  }

  lemma PaddingJoins(m: seq<Byte>, k: nat, length: seq<Byte>)
    ensures m + ([0x80] + Zeros(k)) + length == m + ([0x80] + Zeros(k) + length)
    ensures m + [0x80] + Zeros(k) + length == m + ([0x80] + Zeros(k) + length)
  {
  }

  /** The index never wraps in a call that ends. */
  lemma IndexFits(from: nat, blocks: nat, n: nat)
    requires from <= 64 && Ends(64 - from, n) && from + 64 * blocks <= n
    ensures (from + 64 * blocks + 63) % WORD == from + 64 * blocks + 63
  {
  }

  lemma NextSlice(m: seq<Byte>, s: seq<Byte>, from: nat, i: nat)
    requires from <= i && i + 64 <= |s|
    ensures m + s[from..i] + s[i..i + 64] == m + s[from..i + 64]
  {
  }

  class Md<S> {
    const f: Compress<S>
    const initial: S
    const buffer: array<Byte>
    var state: S
    var count0: nat
    var count1: nat
    ghost var message: seq<Byte>
    ghost var lost: nat  // how much the high word is behind

    /** The whole blocks of the message are in the state and the rest is in the buffer. */
    ghost predicate Kept()
      reads this, buffer
    {
      && buffer.Length == 64
      && state == FoldBlocks(f, 64, initial, message)
      && |Tail(64, message)| == |message| % 64
      && buffer[..|message| % 64] == Tail(64, message)
    }

    /** The low word of the count is always right. */
    ghost predicate Valid()
      reads this, buffer
    {
      Kept() && count0 == 8 * |message| % WORD && count1 < WORD
    }

    /** The count, but for what has been lost. */
    ghost predicate Counted()
      reads this
    {
      Behind(count0, count1, |message|, lost)
    }

    constructor (f: Compress<S>, initial: S)
      ensures Valid() && Counted() && message == [] && lost == 0 && fresh(buffer)
      ensures this.f == f && this.initial == initial
    {
      this.f, this.initial, this.state := f, initial, initial;
      buffer := new Byte[64](i => 0);
      count0, count1, message, lost := 0, 0, [], 0;
    }

    /** Fold the block that data completes. */
    method Fold(ghost data: seq<Byte>, block: seq<Byte>)
      requires Kept() && |message| % 64 + |data| == 64 && block == Tail(64, message) + data
      modifies `state, `message
      ensures message == old(message) + data && |message| % 64 == 0 && Kept()
    {
      Fill(f, 64, initial, message, data);
      state := f(state, block);
      message := message + data;
      TailLength(64, message);
    }

    /** Keep bytes that do not complete a block. */
    method Keep(at: nat, data: seq<Byte>)
      requires Kept() && at == |message| % 64 && at + |data| < 64
      modifies `message, buffer
      ensures message == old(message) + data && Kept()
    {
      Fill(f, 64, initial, message, data);
      Copy(buffer, at, data);
      message := message + data;
      TailLength(64, message);
    }

    /** Top the buffer up and fold it. */
    method FillUp(at: nat, data: seq<Byte>)
      requires Kept() && at == |message| % 64 && at + |data| == 64
      modifies `state, `message, buffer
      ensures message == old(message) + data && |message| % 64 == 0 && Kept()
    {
      ghost var tail := buffer[..at];
      Copy(buffer, at, data);
      assert buffer[..] == tail + data by {
        assert buffer[..] == buffer[..at] + buffer[at..at + |data|];
      }
      Fill(f, 64, initial, message, data);
      state := f(state, buffer[..]);
      message := message + data;
      TailLength(64, message);
    }

    /** Fold as many blocks as possible and keep what remains. */
    method Feed(index: nat, s: seq<Byte>)
      requires Kept() && index == |message| % 64 && Ends(index, |s|)
      modifies `state, `message, buffer
      ensures Kept() && message == old(message) + s
    {
      if |s| >= 64 - index {
        FillUp(index, s[..64 - index]);
        var i := FoldAll(64 - index, s);
        Keep(0, s[i..]);
      } else {
        Keep(index, s);
      }
    }

    method FoldAll(from: nat, s: seq<Byte>) returns (i: nat)
      requires Kept() && |message| % 64 == 0 && from <= |s| && from <= 64 && Ends(64 - from, |s|)
      modifies `state, `message
      ensures Kept() && |message| % 64 == 0 && from <= i <= |s| < i + 64
      ensures message == old(message) + s[from..i]
    {
      i := from;
      ghost var blocks := 0;
      while More(i, |s|)
        invariant from <= i <= |s| && i == from + 64 * blocks && |message| % 64 == 0 && Kept()
        invariant message == old(message) + s[from..i]
        decreases |s| - i
      {
        IndexFits(from, blocks, |s|);
        NextSlice(old(message), s, from, i);
        Fold(s[i..i + 64], s[i..i + 64]);
        i, blocks := (i + 64) % WORD, blocks + 1;
      }
      IndexFits(from, blocks, |s|);
    }

    method Md5Count(n: nat)
      requires count0 == 8 * |message| % WORD && count1 < WORD && n < WORD
      modifies `count0, `count1
      ensures count0 == 8 * (|message| + n) % WORD && count1 < WORD
      ensures lost == 0 && old(Counted()) ==> Behind(count0, count1, |message| + n, 0)
    {
      if lost == 0 && Counted() {
        Md5CountIsExact(count0, count1, |message|, n);
      }
      LowAdds(|message|, n);
      var low := 8 * n % WORD;
      count1 := Md5High(count0, count1, n);
      count0 := (count0 + low) % WORD;
    }

    method Md5Block(s: seq<Byte>)
      requires Valid() && Ends(|message| % 64, |s|)
      modifies this, buffer
      ensures Valid() && message == old(message) + s && lost == old(lost)
      ensures lost == 0 && old(Counted()) ==> Counted()
    {
      Index(count0, |message|);
      var index := count0 / 8 % 64;
      Md5Count(|s|);
      Feed(index, s);
    }

    method Sha1Count(n: nat)
      requires count0 == 8 * |message| % WORD && count1 < WORD
      modifies `count0, `count1
      ensures count0 == 8 * (|message| + n) % WORD && count1 < WORD
      ensures old(Counted()) ==> Behind(count0, count1, |message| + n, lost + LostIn(old(count0), n))
    {
      if Counted() {
        Sha1CountFallsBehind(count0, count1, |message|, n, lost);
      }
      LowAdds(|message|, n);
      LowSum(count0, n);
      count1 := Sha1High(count0, count1, n);
      count0 := (count0 + 8 * n) % WORD;
    }

    method Sha1Block(s: seq<Byte>)
      requires Valid() && Ends(|message| % 64, |s|)
      modifies this, buffer
      ensures Valid() && message == old(message) + s && lost == old(lost) + LostIn(old(count0), |s|)
      ensures old(Counted()) ==> Counted()
    {
      ghost var lost' := lost + LostIn(count0, |s|);
      if |s| > 0 {
        Index(count0, |message|);
        var index := count0 / 8 % 64;
        Sha1Count(|s|);
        Feed(index, s);
      }
      lost := lost';
    }

    /** The padding is a call of its own: 0x80 and zeros. */
    method Md5Done() returns (digest: S)
      requires Valid()
      modifies this, buffer
      ensures digest == FoldBlocks(f, 64, initial, Padded(old(message), 64, LittleEndian(old(count1) * WORD + old(count0), 8)))
    {
      Index(count0, |message|);
      var bits := LittleEndian(count1 * WORD + count0, 8);
      var index := count0 / 8 % 64;
      var padLen := if index < 56 then 56 - index else 120 - index;
      ZeroCountFits(64, 8, |message|);
      Md5Block([0x80] + Zeros(padLen - 1));
      Md5Block(bits);
      PaddingJoins(old(message), padLen - 1, bits);
      digest := state;
    }

    /** The padding is one call for each byte, until 56 bytes of a block are in use. */
    method Sha1Done() returns (digest: S)
      requires Valid()
      modifies this, buffer
      ensures digest == FoldBlocks(f, 64, initial, Padded(old(message), 64, BigEndian(old(count1) * WORD + old(count0), 8)))
    {
      var finalcount := BigEndian(count1 * WORD + count0, 8);
      Sha1Block([0x80]);
      Sha1Zeros(|message| - 1);
      Sha1Block(finalcount);
      PaddingJoins(old(message), ZeroCount(64, 8, |old(message)|), finalcount);
      digest := state;
    }

    method Sha1Zeros(ghost n: nat)
      requires Valid() && |message| == n + 1
      modifies this, buffer
      ensures Valid() && message == old(message) + Zeros(ZeroCount(64, 8, n))
    {
      ghost var k := 0;
      Index(count0, |message|);
      StopsAtZeroCount(n, k);
      while count0 / 8 % 64 != 56
        invariant Valid() && k <= ZeroCount(64, 8, n)
        invariant message == old(message) + Zeros(k)
        invariant count0 / 8 % 64 == 56 <==> k == ZeroCount(64, 8, n)
        decreases ZeroCount(64, 8, n) - k
      {
        OneMoreZero(old(message), k);
        Sha1Block([0]);
        k := k + 1;
        Index(count0, |message|);
        StopsAtZeroCount(n, k);
      }
    }
  }

  /** The length in bits modulo 2^64. */
  ghost function Length64(m: seq<Byte>): nat {
    8 * |m| % (WORD * WORD)
  }

  /** The bytes of the two length fields: SHA-1 stores the most significant first, MD5 the least significant. */
  lemma LengthFieldByte(m: seq<Byte>, i: nat)
    requires i < 8
    ensures Power256(7 - i) > 0 && BigEndian(Length64(m), 8)[i] == 8 * |m| / Power256(7 - i) % 256
    ensures Power256(i) > 0 && LittleEndian(Length64(m), 8)[i] == 8 * |m| / Power256(i) % 256
  {
    assert Power256(8) == WORD * WORD;
    BigEndianModulo(8 * |m|, 8);
    BigEndianByte(8 * |m|, 8, i);
    LittleEndianModulo(8 * |m|, 8);
    LittleEndianByte(8 * |m|, 8, i);
  }

  /** Every call of a run ends. */
  ghost predicate AllEnd(chunks: seq<seq<Byte>>) {
    forall i :: 0 <= i < |chunks| ==> Ends(|Flat(chunks[..i])| % 64, |chunks[i]|)
  }

  /** What the calls of a run make the SHA-1 count lose. */
  ghost function Lost(chunks: seq<seq<Byte>>): nat {
    if chunks == [] then 0
    else
      var before := chunks[..|chunks| - 1];
      Lost(before) + LostIn(8 * |Flat(before)| % WORD, |chunks[|chunks| - 1]|)
  }

  lemma {:induction false} ShortCallsLoseNothing(chunks: seq<seq<Byte>>)
    requires forall i :: 0 <= i < |chunks| ==> |chunks[i]| < 0x2000_0000
    ensures Lost(chunks) == 0
  {
    if chunks != [] {
      ShortCallsLoseNothing(chunks[..|chunks| - 1]);
    }
  }

  lemma ShortCallsEnd(chunks: seq<seq<Byte>>)
    requires forall i :: 0 <= i < |chunks| ==> |chunks[i]| < 0x2000_0000
    ensures AllEnd(chunks)
  {
  }

  /** The first call of 2^29 bytes already loses a bit. */
  lemma LongCallLoses(chunk: seq<Byte>)
    requires |chunk| == 0x2000_0000
    ensures AllEnd([chunk]) && Lost([chunk]) == 1
  {
    assert [chunk][..0] == [];
  }

  lemma LostNext(chunks: seq<seq<Byte>>, i: nat)
    requires i < |chunks|
    ensures Lost(chunks[..i + 1]) == Lost(chunks[..i]) + LostIn(8 * |Flat(chunks[..i])| % WORD, |chunks[i]|)
  {
    assert chunks[..i + 1][..i] == chunks[..i];
  }

  lemma {:induction false} BigEndianIsInjective(x: nat, y: nat, n: nat, limit: nat)
    requires limit == Power256(n) && x < limit && y < limit && BigEndian(x, n) == BigEndian(y, n)
    ensures x == y
  {
    if n > 0 {
      var u, v := BigEndian(x, n), BigEndian(y, n);
      assert u[..n - 1] == BigEndian(x / 256, n - 1) && v[..n - 1] == BigEndian(y / 256, n - 1);
      assert u[n - 1] == x % 256 && v[n - 1] == y % 256;
      BigEndianIsInjective(x / 256, y / 256, n - 1, Power256(n - 1));
    }
  }

  /** The length field is that of FIPS 180-4 section 5.1.1 if and only if what was lost is a multiple of 2^32. */
  lemma LengthFieldIsRight(m: seq<Byte>, lost: nat)
    ensures BigEndian(Bits(|m|, lost), 8) == BigEndian(Length64(m), 8) <==> lost % WORD == 0
  {
    BitsExact(|m|);
    LostMatters(|m|, lost);
    assert Power256(8) == WORD * WORD;
    if BigEndian(Bits(|m|, lost), 8) == BigEndian(Length64(m), 8) {
      BigEndianIsInjective(Bits(|m|, lost), Length64(m), 8, WORD * WORD);
    }
  }

  /** MD5, whole run: padding as in sections 3.1 and 3.2 of RFC 1321, for any split into calls that end. */
  method Md5Digest<S>(f: Compress<S>, initial: S, chunks: seq<seq<Byte>>) returns (digest: S)
    requires AllEnd(chunks)
    ensures digest == FoldBlocks(f, 64, initial, Padded(Flat(chunks), 64, LittleEndian(Length64(Flat(chunks)), 8)))
  {
    hide FoldBlocks, Padded, LittleEndian, Bits;
    var md := new Md(f, initial);
    for i := 0 to |chunks|
      invariant md.Valid() && md.Counted() && md.lost == 0 && fresh(md) && fresh(md.buffer)
      invariant md.message == Flat(chunks[..i]) && md.f == f && md.initial == initial
    {
      FlatNext(chunks, i);
      md.Md5Block(chunks[i]);
    }
    assert chunks[..|chunks|] == chunks;
    BitsOf(md.count0, md.count1, |md.message|, 0);
    BitsExact(|md.message|);
    digest := md.Md5Done();
  }

  /**
   SHA-1, whole run, for any split into calls that end: the message is padded as in section 5.1.1 of
   FIPS 180-4, but with a length less by what the count lost.
   */
  method Sha1Digest<S>(f: Compress<S>, initial: S, chunks: seq<seq<Byte>>) returns (digest: S)
    requires AllEnd(chunks)
    ensures digest ==
            FoldBlocks(f, 64, initial, Padded(Flat(chunks), 64, BigEndian(Bits(|Flat(chunks)|, Lost(chunks)), 8)))
    ensures Lost(chunks) % WORD == 0 ==>
              digest == FoldBlocks(f, 64, initial, Padded(Flat(chunks), 64, BigEndian(Length64(Flat(chunks)), 8)))
  {
    hide FoldBlocks, Padded, BigEndian, Bits;
    var md := new Md(f, initial);
    for i := 0 to |chunks|
      invariant md.Valid() && md.Counted() && md.lost == Lost(chunks[..i]) && fresh(md) && fresh(md.buffer)
      invariant md.message == Flat(chunks[..i]) && md.f == f && md.initial == initial
    {
      FlatNext(chunks, i);
      LostNext(chunks, i);
      md.Sha1Block(chunks[i]);
    }
    assert chunks[..|chunks|] == chunks;
    BitsOf(md.count0, md.count1, |md.message|, md.lost);
    LengthFieldIsRight(md.message, md.lost);
    digest := md.Sha1Done();
  }
}
