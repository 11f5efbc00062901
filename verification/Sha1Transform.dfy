/** The SHA-1 block transform against section 6.1.2 of FIPS 180-4. */
module Sha1Transform {
  import opened MessageSchedule

  type Word = bv32

  /** The five working variables, in their fixed places. */
  datatype Five<!T> = Five(a: T, b: T, c: T, d: T, e: T)

  datatype Phase = First | Second | Third | Fourth

  function PhaseOf(t: nat): Phase {
    if t < 20 then First else if t < 40 then Second else if t < 60 then Third else Fourth
  }

  // ---- As specified: FIPS 180-4 sections 4.1.1, 4.2.1 and 6.1.2 ----

  function Ch(x: Word, y: Word, z: Word): Word {
    (x & y) ^ (!x & z)
  }

  function Parity(x: Word, y: Word, z: Word): Word {
    x ^ y ^ z
  }

  function Maj(x: Word, y: Word, z: Word): Word {
    (x & y) ^ (x & z) ^ (y & z)
  }

  function F(p: Phase, x: Word, y: Word, z: Word): Word {
    match p
    case First => Ch(x, y, z)
    case Second => Parity(x, y, z)
    case Third => Maj(x, y, z)
    case Fourth => Parity(x, y, z)
  }

  function K(p: Phase): Word {
    match p
    case First => 0x5a827999
    case Second => 0x6ed9eba1
    case Third => 0x8f1bbcdc
    case Fourth => 0xca62c1d6
  }

  function FipsT(p: Phase, r: Five<Word>, w: Word): Word {
    FipsMix(r.a, F(p, r.b, r.c, r.d), r.e, K(p), w)
  }

  function FipsMix(a: Word, f: Word, e: Word, k: Word, w: Word): Word {
    a.RotateLeft(5) + f + e + k + w
  }

  function FipsC(b: Word): Word {
    b.RotateLeft(30)
  }

  /** Every variable moves one place on. */
  function FipsRound(p: Phase, r: Five<Word>, w: Word): Five<Word> {
    Five(FipsT(p, r, w), r.a, FipsC(r.b), r.c, r.d)
  }

  /** Word t, from words t - 3, t - 8, t - 14 and t - 16. */
  function FipsNext(w3: Word, w8: Word, w14: Word, w16: Word): Word {
    (w3 ^ w8 ^ w14 ^ w16).RotateLeft(1)
  }

  function Specified(): Algorithm<Word, Five<Word>> {
    Algorithm(16 - 3, 16 - 8, 16 - 14, FipsNext, w => w, (r, t: nat, w) => FipsRound(PhaseOf(t), r, w), 80)
  }

  function FipsCompress(h: Five<Word>, m: seq<Word>): Five<Word>
    requires |m| == 16
  {
    Sum(h, RoundsTo(Specified(), m, h, 80))
  }

  function Add(x: Word, y: Word): Word {
    x + y
  }

  function Sum(x: Five<Word>, y: Five<Word>): Five<Word> {
    Five(Add(x.a, y.a), Add(x.b, y.b), Add(x.c, y.c), Add(x.d, y.d), Add(x.e, y.e))
  }

  // ---- What these definitions say ----

  /** Where x has a bit the choice is that of y, elsewhere that of z. */
  lemma ChMeans(x: Word, y: Word, z: Word)
    ensures Ch(x, y, z) & x == y & x
    ensures Ch(x, y, z) & !x == z & !x
  {
  }

  /** Where x and y agree the majority is theirs, elsewhere that of z. */
  lemma MajMeans(x: Word, y: Word, z: Word)
    ensures Maj(x, y, z) & !(x ^ y) == x & !(x ^ y)
    ensures Maj(x, y, z) & (x ^ y) == z & (x ^ y)
  {
  }

  /** Where x and y agree the parity is that of z, elsewhere the other. */
  lemma ParityMeans(x: Word, y: Word, z: Word)
    ensures Parity(x, y, z) & !(x ^ y) == z & !(x ^ y)
    ensures Parity(x, y, z) & (x ^ y) == !z & (x ^ y)
  {
  }

  /** Section 4.2.1: the constants are the integer parts of 2^30 times the square roots of 2, 3, 5 and 10. */
  lemma ConstantsAreRoots(p: Phase)
    ensures
      var k, n := K(p) as int, match p case First => 2 case Second => 3 case Third => 5 case Fourth => 10;
      k * k <= n * 0x1000_0000_0000_0000 < (k + 1) * (k + 1)
  {
  }

  /** The schedule, the rounds and the sum of section 6.1.2, put together. */
  lemma StepsAreFips(m: seq<Word>, h: Five<Word>, t: nat, n: nat)
    requires |m| == 16 && n == 80
    ensures t < 16 ==> FullSchedule(Specified(), m, t) == m[t]
    ensures t >= 16 ==>
              FullSchedule(Specified(), m, t) ==
              FipsNext(FullSchedule(Specified(), m, t - 3), FullSchedule(Specified(), m, t - 8),
                       FullSchedule(Specified(), m, t - 14), FullSchedule(Specified(), m, t - 16))
    ensures RoundsTo(Specified(), m, h, 0) == h
    ensures RoundsTo(Specified(), m, h, t + 1) ==
            FipsRound(if t < 20 then First else if t < 40 then Second else if t < 60 then Third else Fourth,
                      RoundsTo(Specified(), m, h, t), FullSchedule(Specified(), m, t))
    ensures FipsCompress(h, m) == Sum(h, RoundsTo(Specified(), m, h, n))
  {
    hide FullSchedule, RoundsTo, FipsNext, FipsRound, Sum;
    OneStep(Specified(), m, h, t);
    RoundOf(RoundsTo(Specified(), m, h, t), t, FullSchedule(Specified(), m, t));
  }

  lemma RoundOf(r: Five<Word>, t: nat, w: Word)
    ensures Specified().round(r, t, w) == FipsRound(PhaseOf(t), r, w)
  {
    hide FipsRound;
  }

  lemma SumMeans(x: Five<Word>, y: Five<Word>)
    ensures
      var s := Sum(x, y);
      && s.a == Add(x.a, y.a) && s.b == Add(x.b, y.b) && s.c == Add(x.c, y.c) && s.d == Add(x.d, y.d)
      && s.e == Add(x.e, y.e)
  {
    hide Add;
  }

  lemma AddMeans(x: Word, y: Word)
    ensures Add(x, y) == x + y
  {
  }

  // ---- As coded: the variables stay where they are and the five names move ----

  /** From the byte order of a little-endian host. */
  function Reverse(w: Word): Word {
    (((w << 24) | (w >> 8)) & 0xff00ff00) | (((w << 8) | (w >> 24)) & 0x00ff00ff)
  }

  function Next(w13: Word, w8: Word, w2: Word, w0: Word): Word {
    var x := w13 ^ w8 ^ w2 ^ w0;
    (x << 1) | (x >> 31)
  }

  function ShortCh(w: Word, x: Word, y: Word): Word {
    (w & (x ^ y)) ^ y
  }

  function ShortMaj(w: Word, x: Word, y: Word): Word {
    ((w | x) & y) | (w & x)
  }

  function CodedF(p: Phase, w: Word, x: Word, y: Word): Word {
    match p
    case First => ShortCh(w, x, y)
    case Second => Parity(w, x, y)
    case Third => ShortMaj(w, x, y)
    case Fourth => Parity(w, x, y)
  }

  function NewZ(p: Phase, v: Word, w: Word, x: Word, y: Word, z: Word, word: Word): Word {
    Mix(v, CodedF(p, w, x, y), z, K(p), word)
  }

  function Mix(v: Word, f: Word, z: Word, k: Word, word: Word): Word {
    z + (f + word + k + ((v << 5) | (v >> 27)))
  }

  function NewW(w: Word): Word {
    (w << 30) | (w >> 2)
  }

  /** Which variable a round calls v; w, x, y and z are the four after it, in turn. */
  datatype Turn = A | E | D | C | B

  function TurnOf(t: nat): Turn {
    match t % 5 case 0 => A case 1 => E case 2 => D case 3 => C case _ => B
  }

  /** The variables in the order of their names in this turn. */
  function View<T>(turn: Turn, r: Five<T>): Five<T> {
    match turn
    case A => r
    case E => Five(r.e, r.a, r.b, r.c, r.d)
    case D => Five(r.d, r.e, r.a, r.b, r.c)
    case C => Five(r.c, r.d, r.e, r.a, r.b)
    case B => Five(r.b, r.c, r.d, r.e, r.a)
  }

  /** Store the variables called z and w in this turn. */
  function Store<T>(turn: Turn, r: Five<T>, z: T, w: T): Five<T> {
    match turn
    case A => r.(e := z, b := w)
    case E => r.(d := z, a := w)
    case D => r.(c := z, e := w)
    case C => r.(b := z, d := w)
    case B => r.(a := z, c := w)
  }

  function CodedRound(p: Phase, turn: Turn, r: Five<Word>, word: Word): Five<Word> {
    var n := View(turn, r);
    Store(turn, r, NewZ(p, n.a, n.b, n.c, n.d, n.e, word), NewW(n.b))
  }

  function Coded(): Algorithm<Word, Five<Word>> {
    Specified().(next := Next, load := Reverse, round := (r, t: nat, w) => CodedRound(PhaseOf(t), TurnOf(t), r, w))
  }

  // ---- The code meets the specification ----

  lemma NextIsFips(w13: Word, w8: Word, w2: Word, w0: Word)
    ensures Next(w13, w8, w2, w0) == FipsNext(w13, w8, w2, w0)
  {
  }

  lemma ShortChIsCh(x: Word, y: Word, z: Word)
    ensures ShortCh(x, y, z) == Ch(x, y, z)
  {
    calc {
      ShortCh(x, y, z);
      (x & (y ^ z)) ^ z;
      (x & y) ^ (!x & z);
      Ch(x, y, z);
    }
  }

  lemma ShortMajIsMaj(x: Word, y: Word, z: Word)
    ensures ShortMaj(x, y, z) == Maj(x, y, z)
  {
    calc {
      ShortMaj(x, y, z);
      ((x | y) & z) | (x & y);
      (x & y) ^ (x & z) ^ (y & z);
      Maj(x, y, z);
    }
  }

  lemma SameF(p: Phase, x: Word, y: Word, z: Word)
    ensures CodedF(p, x, y, z) == F(p, x, y, z)
  {
    match p
    case First => ShortChIsCh(x, y, z);
    case Second =>
    case Third => ShortMajIsMaj(x, y, z);
    case Fourth =>
  }

  lemma MixIsFips(v: Word, f: Word, z: Word, k: Word, word: Word)
    ensures Mix(v, f, z, k, word) == FipsMix(v, f, z, k, word)
  {
  }

  lemma NewZIsFips(p: Phase, r: Five<Word>, word: Word)
    ensures NewZ(p, r.a, r.b, r.c, r.d, r.e, word) == FipsT(p, r, word)
  {
    SameF(p, r.b, r.c, r.d);
    MixIsFips(r.a, F(p, r.b, r.c, r.d), r.e, K(p), word);
  }

  lemma NewWIsFips(w: Word)
    ensures NewW(w) == FipsC(w)
  {
  }

  /** The bytes of a block, as the little-endian host reads them, are turned into big-endian words. */
  lemma ReverseReadsBigEndian(b0: Word, b1: Word, b2: Word, b3: Word)
    requires b0 <= 0xff && b1 <= 0xff && b2 <= 0xff && b3 <= 0xff
    ensures Reverse(b0 | (b1 << 8) | (b2 << 16) | (b3 << 24)) == (b0 << 24) | (b1 << 16) | (b2 << 8) | b3
  {
  }

  /** Moving the names is moving the values. */
  lemma NamesMove<T>(t: nat, r: Five<T>, z: T, w: T)
    ensures
      var n := View(TurnOf(t), r);
      View(TurnOf(t + 1), Store(TurnOf(t), r, z, w)) == Five(z, n.a, w, n.c, n.d)
  {
  }

  lemma RoundAssigns(p: Phase, turn: Turn, r: Five<Word>, word: Word)
    ensures CodedRound(p, turn, r, word) == Store(turn, r, FipsT(p, View(turn, r), word), FipsC(View(turn, r).b))
  {
    NewZIsFips(p, View(turn, r), word);
    NewWIsFips(View(turn, r).b);
  }

  lemma RoundIsFips(p: Phase, t: nat, r: Five<Word>, word: Word)
    ensures View(TurnOf(t + 1), CodedRound(p, TurnOf(t), r, word)) == FipsRound(p, View(TurnOf(t), r), word)
  {
    ghost var n := View(TurnOf(t), r);
    RoundAssigns(p, TurnOf(t), r, word);
    NamesMove(t, r, FipsT(p, n, word), FipsC(n.b));
  }

  ghost function Loaded(block: seq<Word>): seq<Word>
    requires |block| == 16
  {
    seq(16, i requires 0 <= i < 16 => Reverse(block[i]))
  }

  lemma SameAsSpecified()
    ensures SameRecurrence(Coded(), Specified())
  {
    forall w13, w8, w2, w0
      ensures Next(w13, w8, w2, w0) == FipsNext(w13, w8, w2, w0)
    {
      NextIsFips(w13, w8, w2, w0);
    }
  }

  lemma ScheduleIsFips(block: seq<Word>, t: nat)
    requires |block| == 16
    ensures FullSchedule(Coded(), block, t) == FullSchedule(Specified(), Loaded(block), t)
  {
    SameAsSpecified();
    SameSchedule(Coded(), Specified(), block, Loaded(block), t);
  }

  function ViewAt(n: nat, r: Five<Word>): Five<Word> {
    View(TurnOf(n), r)
  }

  lemma CodedRoundIsFips(n: nat, r: Five<Word>, w: Word)
    ensures ViewAt(n + 1, Coded().round(r, n, w)) == Specified().round(ViewAt(n, r), n, w)
  {
    RoundIsFips(PhaseOf(n), n, r, w);
  }

  lemma RoundsAreFips(block: seq<Word>, r: Five<Word>, t: nat)
    requires |block| == 16
    ensures ViewAt(t, RoundsTo(Coded(), block, r, t)) == RoundsTo(Specified(), Loaded(block), r, t)
  {
    SameAsSpecified();
    forall n: nat, x, w
      ensures ViewAt(n + 1, Coded().round(x, n, w)) == Specified().round(ViewAt(n, x), n, w)
    {
      CodedRoundIsFips(n, x, w);
    }
    SameRounds(Coded(), Specified(), ViewAt, block, Loaded(block), r, t);
  }

  /** After a multiple of five rounds the names are back where they began. */
  lemma CodedIsSpecified(block: seq<Word>, h: Five<Word>, t: nat)
    requires |block| == 16 && t % 5 == 0
    ensures RoundsTo(Coded(), block, h, t) == RoundsTo(Specified(), Loaded(block), h, t)
  {
    RoundsAreFips(block, h, t);
  }
}
