/**
 The message schedules of SHA-256, SHA-512 and SHA-1: the code keeps only sixteen
 words, in a ring that may be the very memory of the input block.
 */
module MessageSchedule {
  import opened BlockStream

  // ---- Memory, as bytes and as sixteen words of the host ----

  /** How the host reads a word from so many bytes of memory, and writes one. */
  datatype Host<!Word> = Host(size: nat, read: seq<Byte> -> Word, write: Word -> seq<Byte>)

  ghost predicate Sound<Word(!new)>(host: Host<Word>) {
    host.size > 0 && forall w :: |host.write(w)| == host.size && host.read(host.write(w)) == w
  }

  predicate Holds<Word>(host: Host<Word>, mem: seq<Byte>) {
    |mem| == 16 * host.size
  }

  function WordAt<Word>(host: Host<Word>, mem: seq<Byte>, j: nat): Word
    requires Holds(host, mem) && j < 16
  {
    SlotFits(host.size, j);
    WordFrom(host, mem, host.size * j)
  }

  function WordFrom<Word>(host: Host<Word>, mem: seq<Byte>, at: nat): Word
    requires at + host.size <= |mem|
  {
    host.read(mem[at..at + host.size])
  }

  lemma SlotFits(size: nat, j: nat)
    requires j < 16
    ensures size * j + size <= 16 * size
  {
    assert size * j + size == size * (j + 1);
  }

  /** The memory of a block as words. */
  function WordsOf<Word>(host: Host<Word>, mem: seq<Byte>): (w: seq<Word>)
    requires Holds(host, mem)
    ensures |w| == 16
  {
    seq(16, j requires 0 <= j < 16 => WordAt(host, mem, j))
  }

  lemma SlotsApart(size: nat, i: nat, j: nat)
    requires i < j
    ensures size * i + size <= size * j
  {
    assert size * (i + 1) <= size * j;
  }

  /** Bytes outside a slot do not matter to it. */
  lemma SameSlot<Word>(host: Host<Word>, before: seq<Byte>, after: seq<Byte>, j: nat, k: nat, at: nat)
    requires Holds(host, before) && Holds(host, after) && j < 16 && k < 16 && k != j
    requires at == host.size * j && at + host.size <= 16 * host.size
    requires after[..at] == before[..at] && after[at + host.size..] == before[at + host.size..]
    ensures WordAt(host, after, k) == WordAt(host, before, k)
  {
    hide WordFrom;
    var lo := host.size * k;
    SlotFits(host.size, k);
    if k < j { SlotsApart(host.size, k, j); } else { SlotsApart(host.size, j, k); }
    SameWord(host, before, after, at, lo);
  }

  lemma SameWord<Word>(host: Host<Word>, before: seq<Byte>, after: seq<Byte>, at: nat, lo: nat)
    requires |before| == |after| && at + host.size <= |before| && lo + host.size <= |before|
    requires lo + host.size <= at || at + host.size <= lo
    requires after[..at] == before[..at] && after[at + host.size..] == before[at + host.size..]
    ensures WordFrom(host, after, lo) == WordFrom(host, before, lo)
  {
    SameElsewhere(before, after, at, lo, host.size);
  }

  lemma SameElsewhere(before: seq<Byte>, after: seq<Byte>, at: nat, lo: nat, size: nat)
    requires |before| == |after| && at + size <= |before| && lo + size <= |before| && (lo + size <= at || at + size <= lo)
    requires after[..at] == before[..at] && after[at + size..] == before[at + size..]
    ensures after[lo..lo + size] == before[lo..lo + size]
  {
    forall i | lo <= i < lo + size
      ensures after[i] == before[i]
    {
      if i < at {
        assert after[..at][i] == before[..at][i];
      } else {
        assert after[at + size..][i - at - size] == before[at + size..][i - at - size];
      }
    }
  }

  /** Store a word in its slot. */
  method Store<Word(!new)>(host: Host<Word>, mem: array<Byte>, j: nat, w: Word)
    requires Sound(host) && Holds(host, mem[..]) && j < 16
    modifies mem
    ensures Holds(host, mem[..]) && WordsOf(host, mem[..]) == WordsOf(host, old(mem[..]))[j := w]
  {
    ghost var before := mem[..];
    SlotFits(host.size, j);
    var at := host.size * j;
    Copy(mem, at, host.write(w));
    ghost var after := mem[..];
    assert after[..at] == before[..at] && after[at..at + host.size] == host.write(w);
    assert after[at + host.size..] == before[at + host.size..];
    forall k | 0 <= k < 16 && k != j
      ensures WordAt(host, after, k) == WordAt(host, before, k)
    {
      SameSlot(host, before, after, j, k, at);
    }
    assert WordAt(host, after, j) == w;
  }

  // ---- Schedules and rounds ----

  /**
   One hash algorithm: three lags into the sixteen previous words, the word they and the oldest
   word give, the byte-order conversion of an input word, and the round that uses word t.
   */
  datatype Algorithm<!Word, !Regs> = Algorithm(lag1: nat, lag2: nat, lag3: nat,
                                               next: (Word, Word, Word, Word) -> Word,
                                               load: Word -> Word,
                                               round: (Regs, nat, Word) -> Regs,
                                               rounds: nat)
  {
    ghost predicate Valid() {
      lag1 < 16 && lag2 < 16 && lag3 < 16 && 16 <= rounds
    }
  }

  /** Word t of the full schedule. */
  function FullSchedule<Word, Regs>(alg: Algorithm<Word, Regs>, block: seq<Word>, t: nat): Word
    requires alg.Valid() && |block| == 16
  {
    if t < 16 then alg.load(block[t])
    else alg.next(FullSchedule(alg, block, t - 16 + alg.lag1), FullSchedule(alg, block, t - 16 + alg.lag2),
                  FullSchedule(alg, block, t - 16 + alg.lag3), FullSchedule(alg, block, t - 16))
  }

  /** The working registers after t rounds over the full schedule. */
  function RoundsTo<Word, Regs>(alg: Algorithm<Word, Regs>, block: seq<Word>, r: Regs, t: nat): Regs
    requires alg.Valid() && |block| == 16
  {
    if t == 0 then r else alg.round(RoundsTo(alg, block, r, t - 1), t - 1, FullSchedule(alg, block, t - 1))
  }

  /** The recurrence, for a name given to the whole schedule. */
  lemma NextWord<Word, Regs>(alg: Algorithm<Word, Regs>, block: seq<Word>, w: nat -> Word, t: nat)
    requires alg.Valid() && |block| == 16 && 16 <= t
    requires w == ((k: nat) => FullSchedule(alg, block, k))
    ensures w(t) == alg.next(w(t - 16 + alg.lag1), w(t - 16 + alg.lag2), w(t - 16 + alg.lag3), w(t - 16))
  {
  }

  /** The schedule and the rounds, one step at a time. */
  lemma OneStep<Word, Regs>(alg: Algorithm<Word, Regs>, block: seq<Word>, r: Regs, t: nat)
    requires alg.Valid() && |block| == 16
    ensures FullSchedule(alg, block, t) ==
            if t < 16 then alg.load(block[t])
            else alg.next(FullSchedule(alg, block, t - 16 + alg.lag1), FullSchedule(alg, block, t - 16 + alg.lag2),
                          FullSchedule(alg, block, t - 16 + alg.lag3), FullSchedule(alg, block, t - 16))
    ensures RoundsTo(alg, block, r, t + 1) == alg.round(RoundsTo(alg, block, r, t), t, FullSchedule(alg, block, t))
    ensures RoundsTo(alg, block, r, 0) == r
  {
  }

  /** Two algorithms with the same recurrence and the same input words have the same schedule. */
  lemma {:induction false} SameSchedule<Word(!new), Regs>(alg: Algorithm<Word, Regs>, spec: Algorithm<Word, Regs>,
                                                         block: seq<Word>, m: seq<Word>, t: nat)
    requires SameRecurrence(alg, spec) && |block| == 16 && |m| == 16
    requires forall i :: 0 <= i < 16 ==> alg.load(block[i]) == spec.load(m[i])
    ensures FullSchedule(alg, block, t) == FullSchedule(spec, m, t)
  {
    if t >= 16 {
      SameSchedule(alg, spec, block, m, t - 16 + alg.lag1);
      SameSchedule(alg, spec, block, m, t - 16 + alg.lag2);
      SameSchedule(alg, spec, block, m, t - 16 + alg.lag3);
      SameSchedule(alg, spec, block, m, t - 16);
      ghost var w, v := (k: nat) => FullSchedule(alg, block, k), (k: nat) => FullSchedule(spec, m, k);
      NextWord(alg, block, w, t);
      NextWord(spec, m, v, t);
      SameNext(alg, spec, w, v, t);
    }
  }

  lemma SameNext<Word(!new), Regs>(alg: Algorithm<Word, Regs>, spec: Algorithm<Word, Regs>,
                                  w: nat -> Word, v: nat -> Word, t: nat)
    requires SameRecurrence(alg, spec) && t >= 16
    requires w(t - 16 + alg.lag1) == v(t - 16 + alg.lag1) && w(t - 16 + alg.lag2) == v(t - 16 + alg.lag2)
    requires w(t - 16 + alg.lag3) == v(t - 16 + alg.lag3) && w(t - 16) == v(t - 16)
    ensures alg.next(w(t - 16 + alg.lag1), w(t - 16 + alg.lag2), w(t - 16 + alg.lag3), w(t - 16)) ==
            spec.next(v(t - 16 + alg.lag1), v(t - 16 + alg.lag2), v(t - 16 + alg.lag3), v(t - 16))
  {
  }

  ghost predicate SameRecurrence<Word(!new), Regs>(alg: Algorithm<Word, Regs>, spec: Algorithm<Word, Regs>) {
    && alg.Valid() && spec.Valid()
    && alg.lag1 == spec.lag1 && alg.lag2 == spec.lag2 && alg.lag3 == spec.lag3
    && forall w1, w2, w3, w0 :: alg.next(w1, w2, w3, w0) == spec.next(w1, w2, w3, w0)
  }

  /** If each round is the specified one, seen through a view of the registers, so are any number of them. */
  lemma {:induction false} SameRounds<Word(!new), Regs(!new)>(alg: Algorithm<Word, Regs>, spec: Algorithm<Word, Regs>,
                                                             view: (nat, Regs) -> Regs,
                                                             block: seq<Word>, m: seq<Word>, r: Regs, t: nat)
    requires SameRecurrence(alg, spec) && |block| == 16 && |m| == 16
    requires forall i :: 0 <= i < 16 ==> alg.load(block[i]) == spec.load(m[i])
    requires forall k: nat, x, w :: view(k + 1, alg.round(x, k, w)) == spec.round(view(k, x), k, w)
    ensures view(t, RoundsTo(alg, block, r, t)) == RoundsTo(spec, m, view(0, r), t)
  {
    if t > 0 {
      SameRounds(alg, spec, view, block, m, r, t - 1);
      SameSchedule(alg, spec, block, m, t - 1);
      var x, w := RoundsTo(alg, block, r, t - 1), FullSchedule(alg, block, t - 1);
      assert view(t - 1 + 1, alg.round(x, t - 1, w)) == spec.round(view(t - 1, x), t - 1, w);
    }
  }

  /** The slot of word k in the ring. */
  function Slot(k: nat): nat {
    k % 16
  }

  /** After t words the ring holds the last sixteen of them. */
  ghost predicate RingHolds<Word>(w: nat -> Word, ring: seq<Word>, t: nat)
    requires |ring| == 16 && 16 <= t
  {
    forall k :: t - 16 <= k < t ==> ring[Slot(k)] == w(k)
  }

  lemma SlotsDiffer(t: nat, k: nat)
    requires 16 <= t && t - 16 < k < t
    ensures Slot(k) != Slot(t)
  {
  }

  lemma SlotPeriod(k: nat)
    requires 16 <= k
    ensures Slot(k) == Slot(k - 16)
  {
  }

  /** The word read at distance lag ahead of slot t is the one written 16 - lag words ago. */
  lemma ReadAhead<Word>(w: nat -> Word, ring: seq<Word>, t: nat, lag: nat)
    requires |ring| == 16 && 16 <= t && lag < 16 && RingHolds(w, ring, t)
    ensures ring[Slot(t + lag)] == w(t - 16 + lag)
  {
    SlotPeriod(t + lag);
  }

  /** Overwriting the oldest word with the newest keeps the ring. */
  lemma RingStep<Word>(w: nat -> Word, ring: seq<Word>, t: nat)
    requires |ring| == 16 && 16 <= t && RingHolds(w, ring, t)
    ensures RingHolds(w, ring[Slot(t) := w(t)], t + 1)
  {
    forall k | t + 1 - 16 <= k < t + 1
      ensures ring[Slot(t) := w(t)][Slot(k)] == w(k)
    {
      if k < t { SlotsDiffer(t, k); }
    }
  }

  /** Word t, computed over the word it replaces. */
  method Extend<Word(!new), Regs>(host: Host<Word>, alg: Algorithm<Word, Regs>, ghost w: nat -> Word, ring: array<Byte>, t: nat)
    returns (word: Word)
    requires Sound(host) && alg.Valid() && Holds(host, ring[..]) && 16 <= t && RingHolds(w, WordsOf(host, ring[..]), t)
    requires w(t) == alg.next(w(t - 16 + alg.lag1), w(t - 16 + alg.lag2), w(t - 16 + alg.lag3), w(t - 16))
    modifies ring
    ensures Holds(host, ring[..]) && RingHolds(w, WordsOf(host, ring[..]), t + 1) && word == w(t)
  {
    ghost var before := WordsOf(host, ring[..]);
    ReadAhead(w, before, t, alg.lag1);
    ReadAhead(w, before, t, alg.lag2);
    ReadAhead(w, before, t, alg.lag3);
    ReadAhead(w, before, t, 0);
    hide RingHolds, Sound;
    var s1, s2, s3 := WordAt(host, ring[..], Slot(t + alg.lag1)), WordAt(host, ring[..], Slot(t + alg.lag2)),
                      WordAt(host, ring[..], Slot(t + alg.lag3));
    word := alg.next(s1, s2, s3, WordAt(host, ring[..], Slot(t)));
    Store(host, ring, Slot(t), word);
    RingStep(w, before, t);
  }

  /** Words 0 to 15 are the input block, converted; the rounds go with them. */
  method Load<Word(!new), Regs>(host: Host<Word>, alg: Algorithm<Word, Regs>, start: Regs, data: array<Byte>, ring: array<Byte>)
    returns (r: Regs)
    requires Sound(host) && alg.Valid() && Holds(host, data[..]) && Holds(host, ring[..])
    modifies ring
    ensures Holds(host, ring[..]) && r == RoundsTo(alg, WordsOf(host, old(data[..])), start, 16)
    ensures forall k: nat :: k < 16 ==> WordsOf(host, ring[..])[k] == FullSchedule(alg, WordsOf(host, old(data[..])), k)
  {
    hide Sound, Holds, WordAt;
    ghost var block := WordsOf(host, data[..]);
    r := start;
    var j := 0;
    while j < 16
      invariant 0 <= j <= 16 && Holds(host, data[..]) && Holds(host, ring[..])
      invariant forall k :: j <= k < 16 ==> WordsOf(host, data[..])[k] == block[k]
      invariant forall k: nat :: k < j ==> WordsOf(host, ring[..])[k] == FullSchedule(alg, block, k)
      invariant r == RoundsTo(alg, block, start, j)
    {
      var word := alg.load(WordAt(host, data[..], j));
      Store(host, ring, j, word);
      r := alg.round(r, j, word);
      j := j + 1;
    }
  }

  /**
   The compression loop.  data and ring may be the same memory: every input word is read
   before its slot is written.
   */
  method Transform<Word(!new), Regs>(host: Host<Word>, alg: Algorithm<Word, Regs>, start: Regs, data: array<Byte>, ring: array<Byte>)
    returns (r: Regs)
    requires Sound(host) && alg.Valid() && Holds(host, data[..]) && Holds(host, ring[..])
    modifies ring
    ensures r == RoundsTo(alg, WordsOf(host, old(data[..])), start, alg.rounds)
  {
    ghost var block := WordsOf(host, data[..]);
    ghost var w := (t: nat) => FullSchedule(alg, block, t);
    r := Load(host, alg, start, data, ring);
    var j := 16;
    while j < alg.rounds
      invariant 16 <= j <= alg.rounds && Holds(host, ring[..])
      invariant RingHolds(w, WordsOf(host, ring[..]), j)
      invariant r == RoundsTo(alg, block, start, j)
    {
      NextWord(alg, block, w, j);
      var word := Extend(host, alg, w, ring, j);
      r := alg.round(r, j, word);
      j := j + 1;
    }
  }

  // ---- The compression that a schedule and its rounds make of a block ----

  /** The registers after a block, from those before it and those after its rounds. */
  function Compressed<Word, Regs>(host: Host<Word>, alg: Algorithm<Word, Regs>, sum: (Regs, Regs) -> Regs): Compress<Regs>
    requires alg.Valid()
  {
    (h: Regs, block: seq<Byte>) =>
      if Holds(host, block) then sum(h, RoundsTo(alg, WordsOf(host, block), h, alg.rounds)) else h
  }
}
