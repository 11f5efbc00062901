/**
 Table-driven cyclic redundancy checks against division by single bits, in the reflected form
 (low-order bit first) and in the rotate form (high-order bit first).
 */
module Crc {
  import opened Bytes
  import opened Sequences

  type Word = bv32

  type Byte = x: Word | x <= 0xff

  // ---- Words under exclusive-or ----

  function Xor(x: Word, y: Word): Word {
    x ^ y
  }

  lemma XorCommutes(x: Word, y: Word)
    ensures Xor(x, y) == Xor(y, x)
  {
  }

  lemma XorAssociates(x: Word, y: Word, z: Word)
    ensures Xor(x, Xor(y, z)) == Xor(Xor(x, y), z)
  {
    assert x ^ (y ^ z) == (x ^ y) ^ z;
  }

  lemma XorCancels(x: Word, y: Word, z: Word)
    ensures Xor(Xor(x, z), Xor(y, z)) == Xor(x, y)
  {
  }

  lemma XorSwaps(x: Word, y: Word, z: Word)
    ensures Xor(Xor(x, y), z) == Xor(Xor(x, z), y)
  {
    XorAssociates(x, y, z);
    XorCommutes(y, z);
    XorAssociates(x, z, y);
  }

  lemma XorExchanges(s: Word, t: Word, a: Word, b: Word)
    ensures Xor(Xor(s, t), Xor(a, b)) == Xor(Xor(s, a), Xor(t, b))
  {
    XorAssociates(Xor(s, t), a, b);
    XorSwaps(s, t, a);
    XorAssociates(Xor(s, a), t, b);
  }

  // ---- One step of division for each bit, and the eight steps for a byte ----

  /** The polynomial is taken off if the bit shifted out was set. */
  function Reduced(rest: Word, bit: bool, p: Word): Word {
    if bit then Xor(rest, p) else rest
  }

  function Half(x: Word): Word {
    x >> 1
  }

  function Odd(x: Word): bool {
    x & 1 != 0
  }

  /** Reflected: divide out the low-order bit. */
  function Step(p: Word, x: Word): Word {
    Reduced(Half(x), Odd(x), p)
  }

  function Two(p: Word, x: Word): Word {
    Step(p, Step(p, x))
  }

  function Four(p: Word, x: Word): Word {
    Two(p, Two(p, x))
  }

  function Eight(p: Word, x: Word): Word {
    Four(p, Four(p, x))
  }

  function Double(x: Word): Word {
    x << 1
  }

  function Top(x: Word): bool {
    x & 0x80000000 != 0
  }

  /** Rotate: divide out the high-order bit. */
  function RStep(p: Word, x: Word): Word {
    Reduced(Double(x), Top(x), p)
  }

  function RTwo(p: Word, x: Word): Word {
    RStep(p, RStep(p, x))
  }

  function RFour(p: Word, x: Word): Word {
    RTwo(p, RTwo(p, x))
  }

  function REight(p: Word, x: Word): Word {
    RFour(p, RFour(p, x))
  }

  /** The byte goes in at the end that is divided out first. */
  function In(s: Word, c: Word): Word {
    Xor(s, c)
  }

  function RIn(s: Word, c: Word): Word {
    Xor(s, High(c))
  }

  function High(c: Word): Word {
    c << 24
  }

  function ByteStep(rotate: bool, p: Word, s: Word, c: Word): Word {
    if rotate then REight(p, RIn(s, c)) else Eight(p, In(s, c))
  }

  // ---- As coded: shift a byte out and add the table entry that it and the input byte select ----

  function Index(s: Word, c: Word): Word {
    (s ^ c) & 0xff
  }

  function RIndex(s: Word, c: Word): Word {
    ((s >> 24) ^ c) & 0xff
  }

  function Down(s: Word): Word {
    s >> 8
  }

  function Up(s: Word): Word {
    s << 8
  }

  function Out(s: Word, entry: Word): Word {
    Xor(Down(s), entry)
  }

  function ROut(s: Word, entry: Word): Word {
    Xor(Up(s), entry)
  }

  function ByteSteps(rotate: bool, p: Word): (Word, Byte) -> Word {
    (s: Word, c: Byte) => ByteStep(rotate, p, s, c)
  }

  /** The check of a whole message. */
  function Check(rotate: bool, p: Word, s: Word, m: seq<Byte>): Word {
    Run(ByteSteps(rotate, p), s, m)
  }

  lemma CheckAppend(rotate: bool, p: Word, s: Word, m: seq<Byte>, d: seq<Byte>)
    ensures Check(rotate, p, s, m + d) == Check(rotate, p, Check(rotate, p, s, m), d)
  {
    RunAppend(ByteSteps(rotate, p), s, m, d);
  }

  // ---- Division is linear over exclusive-or ----

  lemma ReducedLinear(a: Word, b: Word, s: bool, t: bool, p: Word)
    ensures Reduced(Xor(a, b), s != t, p) == Xor(Reduced(a, s, p), Reduced(b, t, p))
  {
    XorCancels(a, b, p);
    XorSwaps(a, p, b);
    XorAssociates(a, b, p);
  }

  lemma HalfLinear(x: Word, y: Word)
    ensures Half(Xor(x, y)) == Xor(Half(x), Half(y))
  {
  }

  lemma OddLinear(x: Word, y: Word)
    ensures Odd(Xor(x, y)) <==> Odd(x) != Odd(y)
  {
  }

  lemma DoubleLinear(x: Word, y: Word)
    ensures Double(Xor(x, y)) == Xor(Double(x), Double(y))
  {
  }

  lemma TopLinear(x: Word, y: Word)
    ensures Top(Xor(x, y)) <==> Top(x) != Top(y)
  {
  }

  lemma StepLinear(p: Word, x: Word, y: Word)
    ensures Step(p, Xor(x, y)) == Xor(Step(p, x), Step(p, y))
  {
    HalfLinear(x, y);
    OddLinear(x, y);
    ReducedLinear(Half(x), Half(y), Odd(x), Odd(y), p);
  }

  lemma TwoLinear(p: Word, x: Word, y: Word)
    ensures Two(p, Xor(x, y)) == Xor(Two(p, x), Two(p, y))
  {
    StepLinear(p, x, y);
    StepLinear(p, Step(p, x), Step(p, y));
  }

  lemma FourLinear(p: Word, x: Word, y: Word)
    ensures Four(p, Xor(x, y)) == Xor(Four(p, x), Four(p, y))
  {
    TwoLinear(p, x, y);
    TwoLinear(p, Two(p, x), Two(p, y));
  }

  lemma EightLinear(p: Word, x: Word, y: Word)
    ensures Eight(p, Xor(x, y)) == Xor(Eight(p, x), Eight(p, y))
  {
    FourLinear(p, x, y);
    FourLinear(p, Four(p, x), Four(p, y));
  }

  lemma RStepLinear(p: Word, x: Word, y: Word)
    ensures RStep(p, Xor(x, y)) == Xor(RStep(p, x), RStep(p, y))
  {
    calc {
      RStep(p, Xor(x, y));
      { DoubleLinear(x, y); TopLinear(x, y); }
      Reduced(Xor(Double(x), Double(y)), Top(x) != Top(y), p);
      { ReducedLinear(Double(x), Double(y), Top(x), Top(y), p); }
      Xor(Reduced(Double(x), Top(x), p), Reduced(Double(y), Top(y), p));
      Xor(RStep(p, x), RStep(p, y));
    }
  }

  lemma RTwoLinear(p: Word, x: Word, y: Word)
    ensures RTwo(p, Xor(x, y)) == Xor(RTwo(p, x), RTwo(p, y))
  {
    RStepLinear(p, x, y);
    RStepLinear(p, RStep(p, x), RStep(p, y));
  }

  lemma RFourLinear(p: Word, x: Word, y: Word)
    ensures RFour(p, Xor(x, y)) == Xor(RFour(p, x), RFour(p, y))
  {
    RTwoLinear(p, x, y);
    RTwoLinear(p, RTwo(p, x), RTwo(p, y));
  }

  lemma REightLinear(p: Word, x: Word, y: Word)
    ensures REight(p, Xor(x, y)) == Xor(REight(p, x), REight(p, y))
  {
    RFourLinear(p, x, y);
    RFourLinear(p, RFour(p, x), RFour(p, y));
  }

  // ---- The table step is eight steps ----

  /** The bits of a word that the next table step does not look up, and those it does. */
  function Kept(x: Word): Word {
    x & 0xffffff00
  }

  function Low(x: Word): Word {
    x & 0xff
  }

  function RKept(x: Word): Word {
    x & 0x00ffffff
  }

  function Highest(x: Word): Word {
    (x >> 24) & 0xff
  }

  lemma KeptAndLow(x: Word)
    ensures Xor(Kept(x), Low(x)) == x
  {
  }

  lemma RKeptAndHighest(x: Word)
    ensures Xor(RKept(x), High(Highest(x))) == x
  {
  }

  /** Bits that do not reach the low end are only shifted. */
  lemma EightKept(p: Word, x: Word)
    ensures Eight(p, Kept(x)) == Down(x)
  {
  }

  lemma REightKept(p: Word, x: Word)
    ensures REight(p, RKept(x)) == Up(x)
  {
  }

  lemma DownIn(s: Word, c: Word)
    requires c <= 0xff
    ensures Down(In(s, c)) == Down(s)
  {
  }

  lemma UpIn(s: Word, c: Word)
    requires c <= 0xff
    ensures Up(RIn(s, c)) == Up(s)
  {
  }

  lemma IndexIsLow(s: Word, c: Word)
    ensures Index(s, c) == Low(In(s, c))
  {
  }

  lemma RIndexIsHighest(s: Word, c: Word)
    requires c <= 0xff
    ensures RIndex(s, c) == Highest(RIn(s, c))
  {
  }

  /** The table step: shift the byte out and add its entry. */
  lemma TableStep(p: Word, s: Word, c: Word)
    requires c <= 0xff
    ensures Out(s, Eight(p, Index(s, c))) == Eight(p, In(s, c))
  {
    hide Eight, Xor, Kept, Low, Index, In, Down;
    var x := In(s, c);
    KeptAndLow(x);
    EightLinear(p, Kept(x), Low(x));
    EightKept(p, x);
    DownIn(s, c);
    IndexIsLow(s, c);
  }

  lemma RotateStep(p: Word, s: Word, c: Word)
    requires c <= 0xff
    ensures ROut(s, REight(p, High(RIndex(s, c)))) == REight(p, RIn(s, c))
  {
    hide REight, Xor, RKept, High, Highest, RIndex, RIn, Up;
    var x := RIn(s, c);
    RKeptAndHighest(x);
    REightLinear(p, RKept(x), High(Highest(x)));
    REightKept(p, x);
    UpIn(s, c);
    RIndexIsHighest(s, c);
  }

  /** The entry for byte i. */
  function Entry(rotate: bool, p: Word, i: Word): Word {
    if rotate then REight(p, High(i)) else Eight(p, i)
  }

  lemma IndexIsByte(x: Word)
    requires x <= 0xff
    ensures (x as int) as Word == x && 0 <= x as int < 256
  {
  }

  // ---- The rotate table is built from eight multiples of the polynomial ----

  /** A bit of a byte, counted from the low end. */
  datatype Bit = B0 | B1 | B2 | B3 | B4 | B5 | B6 | B7 | End
  {
    function Index(): nat {
      match this
      case B0 => 0 case B1 => 1 case B2 => 2 case B3 => 3 case B4 => 4
      case B5 => 5 case B6 => 6 case B7 => 7 case End => 8
    }

    function Next(): Bit {
      match this
      case B0 => B1 case B1 => B2 case B2 => B3 case B3 => B4 case B4 => B5
      case B5 => B6 case B6 => B7 case B7 => End case End => End
    }

    function Mask(): Word {
      match this
      case B0 => 0x01 case B1 => 0x02 case B2 => 0x04 case B3 => 0x08 case B4 => 0x10
      case B5 => 0x20 case B6 => 0x40 case B7 => 0x80 case End => 0x100
    }

    /** The bits below this one. */
    function Below(): Word {
      match this
      case B0 => 0x00 case B1 => 0x01 case B2 => 0x03 case B3 => 0x07 case B4 => 0x0f
      case B5 => 0x1f case B6 => 0x3f case B7 => 0x7f case End => 0xff
    }

    function Shift(i: Word): Word {
      match this
      case B0 => i case B1 => i >> 1 case B2 => i >> 2 case B3 => i >> 3 case B4 => i >> 4
      case B5 => i >> 5 case B6 => i >> 6 case B7 => i >> 7 case End => i >> 8
    }
  }

  lemma IndexNext(b: Bit)
    ensures b.Index() < 8 <==> b != End
    ensures b.Index() < 8 ==> b.Next().Index() == b.Index() + 1
    ensures b.Index() < 7 ==> b != B7
  {
  }

  lemma ShiftNext(b: Bit, i: Word)
    requires b != End
    ensures b.Next().Shift(i) == b.Shift(i) >> 1
  {
    match b
    case B0 => case B1 => case B2 => case B3 => case B4 => case B5 => case B6 => case B7 =>
  }

  function Rest(i: Word, b: Bit): Word {
    i & b.Below()
  }

  function At(i: Word, b: Bit): Word {
    i & b.Mask()
  }

  lemma BelowNext(b: Bit, i: Word)
    requires b != End
    ensures Rest(i, b.Next()) == Xor(Rest(i, b), At(i, b))
  {
  }

  lemma MaskNext(b: Bit)
    requires b != End
    ensures b.Next().Mask() == b.Mask() << 1 && b.Mask() <= 0x80
  {
  }

  lemma BitOf(b: Bit, i: Word)
    requires b != End
    ensures Odd(b.Shift(i)) <==> At(i, b) != 0
    ensures At(i, b) == 0 || At(i, b) == b.Mask()
  {
  }

  /** The multiple of the polynomial that stands for a bit of the byte. */
  function Multiple(p: Word, b: Bit): Word {
    REight(p, High(b.Mask()))
  }

  lemma FirstMultiple(p: Word)
    ensures Multiple(p, B0) == p
  {
  }

  /** Eight steps and one more are one step and eight more. */
  lemma OneMore(p: Word, x: Word)
    ensures REight(p, RStep(p, x)) == RStep(p, REight(p, x))
  {
  }

  lemma Doubled(p: Word, m: Word)
    requires m <= 0x7f
    ensures RStep(p, High(m)) == High(m << 1)
  {
  }

  lemma NextMultiple(p: Word, b: Bit)
    requires b != End && b != B7
    ensures Multiple(p, b.Next()) == RStep(p, Multiple(p, b))
  {
    MaskNext(b);
    Doubled(p, b.Mask());
    OneMore(p, High(b.Mask()));
  }

  function Added(t: Word, selected: bool, multiple: Word): Word {
    if selected then Xor(t, multiple) else t
  }

  lemma AddBit(p: Word, x: Word, rest: Word, bit: Word, mask: Word)
    requires x == Xor(rest, bit) && (bit == 0 || bit == mask)
    ensures REight(p, High(x)) == Added(REight(p, High(rest)), bit != 0, REight(p, High(mask)))
  {
    REightLinear(p, High(rest), High(bit));
    HighLinear(rest, bit);
    NoBits(p);
  }

  lemma HighLinear(x: Word, y: Word)
    ensures High(Xor(x, y)) == Xor(High(x), High(y))
  {
  }

  lemma NoBits(p: Word)
    ensures REight(p, High(0)) == 0
  {
  }

  /** What the bits below b contribute to the entry for byte i. */
  function Partial(p: Word, i: Word, b: Bit): Word {
    REight(p, High(Rest(i, b)))
  }

  lemma NextPartial(p: Word, i: Word, b: Bit)
    requires b != End
    ensures Partial(p, i, b.Next()) == Added(Partial(p, i, b), Odd(b.Shift(i)), Multiple(p, b))
  {
    BelowNext(b, i);
    BitOf(b, i);
    AddBit(p, Rest(i, b.Next()), Rest(i, b), At(i, b), b.Mask());
  }

  lemma WholePartial(p: Word, i: Word)
    requires i <= 0xff
    ensures Partial(p, i, B0) == 0 && Partial(p, i, End) == Entry(true, p, i)
  {
    NoBits(p);
    assert i & 0xff == i;
  }

  // ---- The code ----

  class Crc {
    const rotate: bool
    const addsize: bool
    const xorsize: bv64
    const init: Word
    const done: Word
    const tab: array<Word>
    var sum: Word
    ghost const polynomial: Word

    ghost predicate Valid()
      reads tab
    {
      tab.Length == 256 && forall i :: 0 <= i < 256 ==> tab[i] == Entry(rotate, polynomial, i as Word)
    }

    constructor (polynomial: Word, rotate: bool, addsize: bool, xorsize: bv64, init: Word, done: Word)
      ensures Valid() && sum == init && fresh(tab) && this.polynomial == polynomial && this.rotate == rotate
      ensures this.addsize == addsize && this.xorsize == xorsize && this.init == init && this.done == done
    {
      this.rotate, this.addsize, this.xorsize, this.init, this.done := rotate, addsize, xorsize, init, done;
      this.polynomial := polynomial;
      sum := init;
      var table := new Word[256];
      tab := table;
      new;
      if rotate {
        FillRotate(polynomial);
      } else {
        FillReflected(polynomial);
      }
    }

    method FillReflected(p: Word)
      requires tab.Length == 256
      modifies tab
      ensures forall i :: 0 <= i < 256 ==> tab[i] == Entry(false, p, i as Word)
    {
      hide Entry;
      ghost var entries := (k: nat) => if k < 256 then Entry(false, p, k as Word) else 0;
      for i := 0 to 256
        invariant forall k: nat :: k < i ==> tab[k] == entries(k)
      {
        var entry := ReflectedEntry(p, i as Word);
        tab[i] := entry;
      }
    }

    method FillRotate(p: Word)
      requires tab.Length == 256
      modifies tab
      ensures forall i :: 0 <= i < 256 ==> tab[i] == Entry(true, p, i as Word)
    {
      var multiples := Multiples(p);
      for i := 0 to 256
        invariant forall k :: 0 <= k < i ==> tab[k] == Entry(true, p, k as Word)
      {
        SmallWord(i);
        var entry := RotateEntry(p, multiples, i as Word);
        tab[i] := entry;
      }
    }

    method UpdateReflected(s: Word, c: Word) returns (r: Word)
      requires Valid() && !rotate
      ensures r == ByteStep(rotate, polynomial, s, c & 0xff)
    {
      LowByte(s, c);
      IndexIsByte(Index(s, c));
      TableStep(polynomial, s, c & 0xff);
      r := Out(s, tab[Index(s, c) as int]);
    }

    method UpdateRotate(s: Word, c: Word) returns (r: Word)
      requires Valid() && rotate
      ensures r == ByteStep(rotate, polynomial, s, c & 0xff)
    {
      LowByte(s, c);
      IndexIsByte(RIndex(s, c));
      RotateStep(polynomial, s, c & 0xff);
      r := ROut(s, tab[RIndex(s, c) as int]);
    }

    method Update(s: Word, c: Byte) returns (r: Word)
      requires Valid()
      ensures r == ByteStep(rotate, polynomial, s, c)
    {
      MaskedByte(c);
      if rotate {
        r := UpdateRotate(s, c);
      } else {
        r := UpdateReflected(s, c);
      }
    }

    /** The next n bytes, from index b on. */
    method Bytes(m: seq<Byte>, b: nat, n: nat, ghost s: Word, c0: Word) returns (c: Word)
      requires Valid() && b + n <= |m| && c0 == Check(rotate, polynomial, s, m[..b])
      ensures c == Check(rotate, polynomial, s, m[..b + n])
    {
      c := c0;
      for i := 0 to n
        invariant c == Check(rotate, polynomial, s, m[..b + i])
      {
        NextByte(rotate, polynomial, s, m, b + i);
        c := Update(c, m[b + i]);
      }
    }

    /** Any bytes: 64 at a time while more than 64 are left, then the rest. */
    method Block(m: seq<Byte>)
      requires Valid()
      modifies `sum
      ensures sum == Check(rotate, polynomial, old(sum), m)
    {
      ghost var s := sum;
      var c, b, n := sum, 0, |m|;
      while n > 64
        invariant 0 <= b && 0 <= n && b + n == |m| && sum == s
        invariant c == Check(rotate, polynomial, s, m[..b])
      {
        c := Bytes(m, b, 64, s, c);
        b, n := b + 64, n - 64;
      }
      c := Bytes(m, b, n, s, c);
      assert m[..b + n] == m;
      sum := c;
    }

    /** The length follows the message. */
    method Done(size: bv64)
      requires Valid()
      modifies `sum
      ensures
        var total := if addsize then Check(rotate, polynomial, old(sum), Length(rotate, (size ^ xorsize) as int)) else old(sum);
        sum == Xor(total, done)
    {
      var c := sum;
      if addsize {
        var n: nat := (size ^ xorsize) as int;
        if rotate {
          c := LengthRotate(c, n);
        } else {
          c := LengthReflected(c, n);
        }
      }
      sum := Xor(c, done);
    }

    method LengthRotate(c0: Word, n0: nat) returns (c: Word)
      requires Valid() && rotate
      ensures c == Check(rotate, polynomial, c0, LowFirst(n0))
    {
      var n := n0;
      c := c0;
      ghost var fed: seq<Byte> := [];
      assert fed + LowFirst(n) == LowFirst(n0);
      while n != 0
        invariant fed + LowFirst(n) == LowFirst(n0)
        invariant c == Check(rotate, polynomial, c0, fed)
        decreases n
      {
        LastByte(rotate, polynomial, c0, fed, LowByteOf(n));
        MaskedByte(LowByteOf(n));
        assert LowFirst(n) == [LowByteOf(n)] + LowFirst(n / 256);
        assert fed + ([LowByteOf(n)] + LowFirst(n / 256)) == fed + [LowByteOf(n)] + LowFirst(n / 256);
        c := UpdateRotate(c, LowByteOf(n));
        fed := fed + [LowByteOf(n)];
        n := n / 256;
      }
      assert fed + LowFirst(n) == fed;
    }

    method LengthReflected(c0: Word, n: nat) returns (c: Word)
      requires Valid() && !rotate
      ensures c == Check(rotate, polynomial, c0, HighFirst(n))
    {
      FourBytes(rotate, polynomial, c0, LowByteOf(n / 0x100_0000), LowByteOf(n / 0x1_0000), LowByteOf(n / 0x100), LowByteOf(n));
      c := UpdateReflected(c0, LowByteOf(n / 0x100_0000));
      c := UpdateReflected(c, LowByteOf(n / 0x1_0000));
      c := UpdateReflected(c, LowByteOf(n / 0x100));
      c := UpdateReflected(c, LowByteOf(n));
    }
  }

  // ---- The bytes of the length ----

  function LowByteOf(n: nat): Byte {
    SmallByte((n % 256) as bv8);
    (n % 256) as bv8 as Word
  }

  lemma SmallByte(b: bv8)
    ensures b as Word <= 0xff && (b as Word) as int == b as int
  {
  }

  /** The bytes of the length, the low-order byte first, as few as hold it. */
  function LowFirst(n: nat): seq<Byte> {
    if n == 0 then [] else [LowByteOf(n)] + LowFirst(n / 256)
  }

  /** The four low-order bytes of the length, the high-order byte first. */
  function HighFirst(n: nat): seq<Byte> {
    [LowByteOf(n / 0x100_0000), LowByteOf(n / 0x1_0000), LowByteOf(n / 0x100), LowByteOf(n)]
  }

  function Length(rotate: bool, n: nat): seq<Byte> {
    if rotate then LowFirst(n) else HighFirst(n)
  }

  lemma LowByteIs(n: nat)
    ensures LowByteOf(n) as int == n % 256
  {
    ByteAndBack(n % 256);
    SmallByte((n % 256) as bv8);
  }

  /** What bytes stand for, the low-order byte first. */
  function FromLow(s: seq<Byte>): nat {
    if s == [] then 0 else s[0] as int + 256 * FromLow(s[1..])
  }

  /** What bytes stand for, the high-order byte first. */
  function FromHigh(s: seq<Byte>): nat {
    if s == [] then 0 else 256 * FromHigh(s[..|s| - 1]) + s[|s| - 1] as int
  }

  /** The bytes, low-order first, stand for the length, and the last is not zero. */
  lemma {:induction false} LowFirstIsLength(n: nat)
    ensures FromLow(Length(true, n)) == n
    ensures n > 0 ==> Length(true, n)[|Length(true, n)| - 1] as int > 0
  {
    if n > 0 {
      hide LowByteOf;
      LowByteIs(n);
      LowFirstIsLength(n / 256);
      if n / 256 == 0 {
        assert LowFirst(n) == [LowByteOf(n)];
      }
    }
  }

  /** The four bytes, high-order first, stand for the length modulo 2^32. */
  lemma HighFirstIsLength(n: nat)
    ensures |Length(false, n)| == 4 && FromHigh(Length(false, n)) == n % 0x1_0000_0000
  {
    hide LowByteOf;
    var a, b, c, d := LowByteOf(n / 0x100_0000), LowByteOf(n / 0x1_0000), LowByteOf(n / 0x100), LowByteOf(n);
    LowByteIs(n / 0x100_0000);
    LowByteIs(n / 0x1_0000);
    LowByteIs(n / 0x100);
    LowByteIs(n);
    FromHighFour(a, b, c, d);
    FourBytesOf(n);
  }

  lemma FromHighFour(a: Byte, b: Byte, c: Byte, d: Byte)
    ensures FromHigh([a, b, c, d]) == 0x100_0000 * (a as int) + 0x1_0000 * (b as int) + 0x100 * (c as int) + d as int
  {
    FromHighNext([a, b, c], d);
    FromHighNext([a, b], c);
    FromHighNext([a], b);
    FromHighNext([], a);
    assert [a, b, c, d] == [a, b, c] + [d] && [a, b, c] == [a, b] + [c] && [a, b] == [a] + [b] && [a] == [] + [a];
  }

  lemma FromHighNext(s: seq<Byte>, x: Byte)
    ensures FromHigh(s + [x]) == 256 * FromHigh(s) + x as int
  {
    assert (s + [x])[..|s|] == s;
  }

  lemma FourBytesOf(n: nat)
    ensures 0x100_0000 * (n / 0x100_0000 % 256) + 0x1_0000 * (n / 0x1_0000 % 256) + 0x100 * (n / 0x100 % 256) + n % 256 ==
            n % 0x1_0000_0000
  {
    var q1, q2, q3 := n / 0x100, n / 0x1_0000, n / 0x100_0000;
    Quotient(n, 0x100);
    Quotient(q1, 0x100);
    Quotient(q2, 0x100);
    Quotient(q3, 0x100);
    assert q1 / 0x100 == q2 && q2 / 0x100 == q3;
    var v := 0x100_0000 * (q3 % 256) + 0x1_0000 * (q2 % 256) + 0x100 * (q1 % 256) + n % 256;
    assert n == 0x1_0000_0000 * (q3 / 256) + v;
  }

  lemma LastByte(rotate: bool, p: Word, s: Word, m: seq<Byte>, c: Byte)
    ensures Check(rotate, p, s, m + [c]) == ByteStep(rotate, p, Check(rotate, p, s, m), c)
  {
    assert (m + [c])[..|m|] == m;
  }

  lemma FourBytes(rotate: bool, p: Word, s: Word, a: Byte, b: Byte, c: Byte, d: Byte)
    ensures Check(rotate, p, s, [a, b, c, d]) ==
            ByteStep(rotate, p, ByteStep(rotate, p, ByteStep(rotate, p, ByteStep(rotate, p, s, a), b), c), d)
    ensures a & 0xff == a && b & 0xff == b && c & 0xff == c && d & 0xff == d
  {
    assert [a, b, c, d] == [a, b, c] + [d] && [a, b, c] == [a, b] + [c] && [a, b] == [a] + [b] && [a] == [] + [a];
    LastByte(rotate, p, s, [a, b, c], d);
    LastByte(rotate, p, s, [a, b], c);
    LastByte(rotate, p, s, [a], b);
    LastByte(rotate, p, s, [], a);
  }

  lemma NextByte(rotate: bool, p: Word, s: Word, m: seq<Byte>, i: nat)
    requires i < |m|
    ensures Check(rotate, p, s, m[..i + 1]) == ByteStep(rotate, p, Check(rotate, p, s, m[..i]), m[i])
  {
    assert m[..i + 1] == m[..i] + [m[i]];
    LastByte(rotate, p, s, m[..i], m[i]);
  }

  lemma MaskedByte(c: Byte)
    ensures c & 0xff == c
  {
  }

  lemma SmallWord(i: nat)
    requires i < 256
    ensures i as Word <= 0xff
  {
  }

  /** The macros mask after the exclusive-or, so only the low byte of c matters. */
  lemma LowByte(s: Word, c: Word)
    ensures Index(s, c) == Index(s, c & 0xff) && RIndex(s, c) == RIndex(s, c & 0xff)
    ensures Index(s, c) <= 0xff && RIndex(s, c) <= 0xff && c & 0xff <= 0xff
  {
  }

  method ReflectedEntry(p: Word, i: Word) returns (x: Word)
    ensures x == Entry(false, p, i)
  {
    x := i;
    for j := 0 to 8
      invariant x == Steps(p, i, j)
    {
      x := if Odd(x) then Xor(Half(x), p) else Half(x);
    }
    StepsIsEight(p, i);
  }

  function Steps(p: Word, x: Word, n: nat): Word {
    if n == 0 then x else Step(p, Steps(p, x, n - 1))
  }

  lemma StepsIsEight(p: Word, x: Word)
    ensures Steps(p, x, 8) == Eight(p, x)
  {
    StepsTwo(p, x, 0);
    StepsTwo(p, x, 2);
    StepsTwo(p, x, 4);
    StepsTwo(p, x, 6);
  }

  lemma StepsTwo(p: Word, x: Word, n: nat)
    ensures Steps(p, x, n + 2) == Two(p, Steps(p, x, n))
  {
  }

  /** The polynomial, stepped j times. */
  function Power(p: Word, j: nat): Word {
    if j == 0 then p else RStep(p, Power(p, j - 1))
  }

  method Multiples(p: Word) returns (m: seq<Word>)
    ensures |m| == 8 && forall k: nat :: k < 8 ==> m[k] == Power(p, k)
  {
    m := [p];
    for i := 1 to 8
      invariant |m| == i && forall k: nat :: k < i ==> m[k] == Power(p, k)
    {
      m := m + [RStep(p, m[i - 1])];
    }
  }

  method RotateEntry(p: Word, multiples: seq<Word>, i: Word) returns (t: Word)
    requires |multiples| == 8 && forall k: nat :: k < 8 ==> multiples[k] == Power(p, k)
    requires i <= 0xff
    ensures t == Entry(true, p, i)
  {
    hide Entry, Partial, Multiple, Odd, Added;
    t := 0;
    var x := i;
    ghost var b := B0;
    WholePartial(p, i);
    FirstMultiple(p);
    for j := 0 to 8
      invariant b.Index() == j && t == Partial(p, i, b) && x == b.Shift(i)
      invariant b != End ==> Power(p, j) == Multiple(p, b)
    {
      IndexNext(b);
      NextBit(p, i, b);
      t := Added(t, Odd(x), multiples[j]);
      x := x >> 1;
      b := b.Next();
    }
    IndexNext(b);
  }

  lemma NextBit(p: Word, i: Word, b: Bit)
    requires b != End
    ensures Partial(p, i, b.Next()) == Added(Partial(p, i, b), Odd(b.Shift(i)), Multiple(p, b))
    ensures b.Next().Shift(i) == b.Shift(i) >> 1
    ensures b != B7 ==> Multiple(p, b.Next()) == RStep(p, Multiple(p, b))
  {
    NextPartial(p, i, b);
    ShiftNext(b, i);
    if b != B7 {
      NextMultiple(p, b);
    }
  }

  // ---- Whole runs ----

  /** Open, any split into blocks, done: bitwise division of the message followed by its length. */
  method CrcOf(polynomial: Word, rotate: bool, addsize: bool, xorsize: bv64, init: Word, done: Word,
               chunks: seq<seq<Byte>>, size: bv64)
    returns (sum: Word)
    ensures
      var m := if addsize then Flat(chunks) + Length(rotate, (size ^ xorsize) as int) else Flat(chunks);
      sum == Xor(Check(rotate, polynomial, init, m), done)
  {
    var crc := new Crc(polynomial, rotate, addsize, xorsize, init, done);
    for i := 0 to |chunks|
      invariant crc.Valid() && fresh(crc) && crc.sum == Check(rotate, polynomial, init, Flat(chunks[..i]))
      invariant crc.rotate == rotate && crc.polynomial == polynomial && crc.addsize == addsize
      invariant crc.xorsize == xorsize && crc.done == done
    {
      FlatNext(chunks, i);
      CheckAppend(rotate, polynomial, init, Flat(chunks[..i]), chunks[i]);
      crc.Block(chunks[i]);
    }
    assert chunks[..|chunks|] == chunks;
    crc.Done(size);
    CheckAppend(rotate, polynomial, init, Flat(chunks), Length(rotate, (size ^ xorsize) as int));
    sum := crc.sum;
  }

  // ---- The check of a difference ----

  function Pair<T>(add: (T, T) -> T, a: seq<T>, b: seq<T>): (r: seq<T>)
    requires |a| == |b|
    ensures |r| == |a|
  {
    seq(|a|, i requires 0 <= i < |a| => add(a[i], b[i]))
  }

  lemma {:induction false} RunLinear<S(!new), T(!new)>(f: (S, T) -> S, addS: (S, S) -> S, addT: (T, T) -> T,
                                                       s: S, t: S, a: seq<T>, b: seq<T>)
    requires |a| == |b|
    requires forall x, y, c, d :: f(addS(x, y), addT(c, d)) == addS(f(x, c), f(y, d))
    ensures Run(f, addS(s, t), Pair(addT, a, b)) == addS(Run(f, s, a), Run(f, t, b))
  {
    if a != [] {
      var k := |a| - 1;
      assert Pair(addT, a, b)[..k] == Pair(addT, a[..k], b[..k]);
      RunLinear(f, addS, addT, s, t, a[..k], b[..k]);
    }
  }

  function XorByte(a: Byte, b: Byte): Byte {
    Xor(a, b)
  }

  lemma ReflectedXor(p: Word, s: Word, t: Word, a: Word, b: Word)
    ensures Eight(p, In(Xor(s, t), Xor(a, b))) == Xor(Eight(p, In(s, a)), Eight(p, In(t, b)))
  {
    XorExchanges(s, t, a, b);
    EightLinear(p, In(s, a), In(t, b));
  }

  lemma RotateXor(p: Word, s: Word, t: Word, a: Word, b: Word)
    ensures REight(p, RIn(Xor(s, t), Xor(a, b))) == Xor(REight(p, RIn(s, a)), REight(p, RIn(t, b)))
  {
    HighLinear(a, b);
    XorExchanges(s, t, High(a), High(b));
    REightLinear(p, RIn(s, a), RIn(t, b));
  }

  lemma StepXor(rotate: bool, p: Word, s: Word, t: Word, a: Word, b: Word)
    ensures ByteStep(rotate, p, Xor(s, t), Xor(a, b)) == Xor(ByteStep(rotate, p, s, a), ByteStep(rotate, p, t, b))
  {
    ReflectedXor(p, s, t, a, b);
    RotateXor(p, s, t, a, b);
  }

  /** The checks of two messages of one length differ by the check of their difference. */
  lemma CheckIsLinear(rotate: bool, p: Word, s: Word, t: Word, a: seq<Byte>, b: seq<Byte>)
    requires |a| == |b|
    ensures Check(rotate, p, Xor(s, t), Pair(XorByte, a, b)) == Xor(Check(rotate, p, s, a), Check(rotate, p, t, b))
  {
    var f := ByteSteps(rotate, p);
    forall x, y, c: Byte, d: Byte
      ensures f(Xor(x, y), XorByte(c, d)) == Xor(f(x, c), f(y, d))
    {
      StepXor(rotate, p, x, y, c, d);
    }
    RunLinear(f, Xor, XorByte, s, t, a, b);
  }
}
