/** The SHA-512 block transform against section 6.4.2 of FIPS 180-4. */
module Sha512Transform {
  import opened MessageSchedule

  type Word = bv64

  /** The working variables a to h. */
  datatype Regs = Regs(a: Word, b: Word, c: Word, d: Word, e: Word, f: Word, g: Word, h: Word)

  // ---- The functions of FIPS 180-4 section 4.1.3, with rotation written as two shifts ----

  function Ch(x: Word, y: Word, z: Word): Word {
    (x & y) ^ (!x & z)
  }

  function Maj(x: Word, y: Word, z: Word): Word {
    (x & y) ^ (x & z) ^ (y & z)
  }

  function BigSigma0(x: Word): Word {
    ((x >> 28) | (x << 36)) ^ ((x >> 34) | (x << 30)) ^ ((x >> 39) | (x << 25))
  }

  function BigSigma1(x: Word): Word {
    ((x >> 14) | (x << 50)) ^ ((x >> 18) | (x << 46)) ^ ((x >> 41) | (x << 23))
  }

  function SmallSigma0(x: Word): Word {
    ((x >> 1) | (x << 63)) ^ ((x >> 8) | (x << 56)) ^ (x >> 7)
  }

  function SmallSigma1(x: Word): Word {
    ((x >> 19) | (x << 45)) ^ ((x >> 61) | (x << 3)) ^ (x >> 6)
  }

  function Add(x: Word, y: Word): Word {
    x + y
  }

  function Round(k: Word, w: Word, r: Regs): Regs {
    var t1 := Add(Add(Add(Add(r.h, BigSigma1(r.e)), Ch(r.e, r.f, r.g)), k), w);
    var t2 := Add(BigSigma0(r.a), Maj(r.a, r.b, r.c));
    Regs(Add(t1, t2), r.a, r.b, r.c, Add(r.d, t1), r.e, r.f, r.g)
  }

  function Sum(x: Regs, y: Regs): Regs {
    Regs(Add(x.a, y.a), Add(x.b, y.b), Add(x.c, y.c), Add(x.d, y.d),
         Add(x.e, y.e), Add(x.f, y.f), Add(x.g, y.g), Add(x.h, y.h))
  }

  // ---- As coded: the ring, updated in one expression ----

  /** From the byte order of a little-endian host. */
  function Reverse(w: Word): Word {
    var tmp := (w >> 32) | (w << 32);
    var tmp1 := ((tmp & 0xff00ff00ff00ff00) >> 8) | ((tmp & 0x00ff00ff00ff00ff) << 8);
    ((tmp1 & 0xffff0000ffff0000) >> 16) | ((tmp1 & 0x0000ffff0000ffff) << 16)
  }

  function Next(w14: Word, w9: Word, w1: Word, w0: Word): Word {
    Add(w0, Add(Add(SmallSigma1(w14), w9), SmallSigma0(w1)))
  }

  function Coded(k: seq<Word>): Algorithm<Word, Regs>
    requires |k| == 80
  {
    Specified(k).(next := Next, load := Reverse)
  }

  // ---- As specified: the full schedule of FIPS 180-4 section 6.4.2 ----

  /** Word t, from words t - 2, t - 7, t - 15 and t - 16. */
  function FipsNext(w2: Word, w7: Word, w15: Word, w16: Word): Word {
    Add(Add(Add(SmallSigma1(w2), w7), SmallSigma0(w15)), w16)
  }

  function Specified(k: seq<Word>): Algorithm<Word, Regs>
    requires |k| == 80
  {
    Algorithm(16 - 2, 16 - 7, 16 - 15, FipsNext, w => w, (r, t, w) => Round(if t < 80 then k[t] else 0, w, r), 80)
  }

  function FipsCompress(k: seq<Word>, h: Regs, m: seq<Word>): Regs
    requires |m| == 16 && |k| == 80
  {
    Sum(h, RoundsTo(Specified(k), m, h, |k|))
  }

  // ---- The code meets the specification ----

  /** Each pair of shifts is a rotation. */
  lemma SigmasRotate(x: Word)
    ensures BigSigma0(x) == x.RotateRight(28) ^ x.RotateRight(34) ^ x.RotateRight(39)
    ensures BigSigma1(x) == x.RotateRight(14) ^ x.RotateRight(18) ^ x.RotateRight(41)
    ensures SmallSigma0(x) == x.RotateRight(1) ^ x.RotateRight(8) ^ (x >> 7)
    ensures SmallSigma1(x) == x.RotateRight(19) ^ x.RotateRight(61) ^ (x >> 6)
  {
  }

  /** Where x has a bit the choice is that of y, elsewhere that of z. */
  lemma ChMeans(x: Word, y: Word, z: Word)
    ensures Ch(x, y, z) & x == y & x
    ensures Ch(x, y, z) & !x == z & !x
  {
  }

  /** Where x and y agree the majority is theirs, elsewhere that of z. */
  lemma MajMeans(x: Word, y: Word, z: Word)
    ensures Maj(x, y, z) & !(x ^ y) == x & !(x ^ y)
    ensures Maj(x, y, z) & (x ^ y) == z & (x ^ y)
  {
  }

  /** The new word of step 1 of section 6.4.2. */
  lemma FipsNextMeans(w2: Word, w7: Word, w15: Word, w16: Word)
    ensures FipsNext(w2, w7, w15, w16) ==
            Add(Add(Add(w2.RotateRight(19) ^ w2.RotateRight(61) ^ (w2 >> 6), w7),
                    w15.RotateRight(1) ^ w15.RotateRight(8) ^ (w15 >> 7)), w16)
  {
    hide SmallSigma0, SmallSigma1, Add;
    SigmasRotate(w2);
    SigmasRotate(w15);
  }

  /** The round of step 3 of section 6.4.2. */
  lemma RoundMeans(k: Word, w: Word, r: Regs, sum1: Word, sum0: Word, t1: Word, t2: Word)
    requires sum1 == r.e.RotateRight(14) ^ r.e.RotateRight(18) ^ r.e.RotateRight(41)
    requires sum0 == r.a.RotateRight(28) ^ r.a.RotateRight(34) ^ r.a.RotateRight(39)
    requires t1 == Add(Add(Add(Add(r.h, sum1), Ch(r.e, r.f, r.g)), k), w) && t2 == Add(sum0, Maj(r.a, r.b, r.c))
    ensures Round(k, w, r) == Regs(Add(t1, t2), r.a, r.b, r.c, Add(r.d, t1), r.e, r.f, r.g)
  {
    hide BigSigma0, BigSigma1, Ch, Maj, Add;
    SigmasRotate(r.a);
    SigmasRotate(r.e);
  }

  /** The schedule, the rounds and the sum of section 6.4.2, put together. */
  lemma StepsAreFips(k: seq<Word>, m: seq<Word>, h: Regs, t: nat)
    requires |k| == 80 && |m| == 16
    ensures t < 16 ==> FullSchedule(Specified(k), m, t) == m[t]
    ensures t >= 16 ==>
              FullSchedule(Specified(k), m, t) ==
              FipsNext(FullSchedule(Specified(k), m, t - 2), FullSchedule(Specified(k), m, t - 7),
                       FullSchedule(Specified(k), m, t - 15), FullSchedule(Specified(k), m, t - 16))
    ensures RoundsTo(Specified(k), m, h, 0) == h
    ensures t < 80 ==>
              RoundsTo(Specified(k), m, h, t + 1) ==
              Round(k[t], FullSchedule(Specified(k), m, t), RoundsTo(Specified(k), m, h, t))
    ensures FipsCompress(k, h, m) == Sum(h, RoundsTo(Specified(k), m, h, |k|))
  {
    hide FullSchedule, RoundsTo, FipsNext, Round, Sum;
    OneStep(Specified(k), m, h, t);
  }

  lemma SumMeans(x: Regs, y: Regs)
    ensures
      var s := Sum(x, y);
      && s.a == Add(x.a, y.a) && s.b == Add(x.b, y.b) && s.c == Add(x.c, y.c) && s.d == Add(x.d, y.d)
      && s.e == Add(x.e, y.e) && s.f == Add(x.f, y.f) && s.g == Add(x.g, y.g) && s.h == Add(x.h, y.h)
  {
    hide Add;
  }

  lemma AddMeans(x: Word, y: Word)
    ensures Add(x, y) == x + y
  {
  }

  lemma NextIsFips(w14: Word, w9: Word, w1: Word, w0: Word)
    ensures Next(w14, w9, w1, w0) == FipsNext(w14, w9, w1, w0)
  {
    hide SmallSigma0, SmallSigma1, Add;
    Reassociate(SmallSigma1(w14), w9, SmallSigma0(w1), w0);
  }

  lemma Reassociate(a: Word, b: Word, c: Word, d: Word)
    ensures Add(d, Add(Add(a, b), c)) == Add(Add(Add(a, b), c), d)
  {
  }

  /** The bytes of a block, as the little-endian host reads them, are turned into big-endian words. */
  lemma ReverseReadsBigEndian(b0: Word, b1: Word, b2: Word, b3: Word, b4: Word, b5: Word, b6: Word, b7: Word)
    requires b0 <= 0xff && b1 <= 0xff && b2 <= 0xff && b3 <= 0xff && b4 <= 0xff && b5 <= 0xff && b6 <= 0xff && b7 <= 0xff
    ensures Reverse(b0 | (b1 << 8) | (b2 << 16) | (b3 << 24) | (b4 << 32) | (b5 << 40) | (b6 << 48) | (b7 << 56)) ==
            (b0 << 56) | (b1 << 48) | (b2 << 40) | (b3 << 32) | (b4 << 24) | (b5 << 16) | (b6 << 8) | b7
  {
  }

  ghost function Loaded(block: seq<Word>): seq<Word>
    requires |block| == 16
  {
    seq(16, i requires 0 <= i < 16 => Reverse(block[i]))
  }

  /** The recurrence as coded, over the words of the host, is the one specified, over big-endian words. */
  lemma CodedIsSpecified(k: seq<Word>, block: seq<Word>, r: Regs, t: nat)
    requires |k| == 80 && |block| == 16
    ensures RoundsTo(Coded(k), block, r, t) == RoundsTo(Specified(k), Loaded(block), r, t)
    ensures FullSchedule(Coded(k), block, t) == FullSchedule(Specified(k), Loaded(block), t)
  {
    forall w14, w9, w1, w0
      ensures Next(w14, w9, w1, w0) == FipsNext(w14, w9, w1, w0)
    {
      NextIsFips(w14, w9, w1, w0);
    }
    SameRounds(Coded(k), Specified(k), (n, x) => x, block, Loaded(block), r, t);
    SameSchedule(Coded(k), Specified(k), block, Loaded(block), t);
  }
}
