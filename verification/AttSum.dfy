/** The System V sum: bytes added modulo 2^32, in eight lanes where there are many, and folded to 16 bits. */
module AttSum {
  import opened Sequences

  type Byte = x: int | 0 <= x < 256

  const WORD: nat := 0x1_0000_0000

  /** An unsigned 32-bit word. */
  type Word = x: int | 0 <= x < WORD

  function Total(m: seq<Byte>): nat {
    if m == [] then 0 else Total(m[..|m| - 1]) + m[|m| - 1]
  }

  lemma {:induction false} TotalAppend(a: seq<Byte>, b: seq<Byte>)
    ensures Total(a + b) == Total(a) + Total(b)
  {
    if b == [] {
      assert a + b == a;
    } else {
      assert (a + b)[..|a + b| - 1] == a + b[..|b| - 1];
      TotalAppend(a, b[..|b| - 1]);
    }
  }

  lemma TotalWithout(x: seq<Byte>, c: Byte, y: seq<Byte>)
    ensures Total(x + [c] + y) == Total(x + y) + c
  {
    TotalAppend(x + [c], y);
    TotalAppend(x, y);
    assert (x + [c])[..|x|] == x;
  }

  /** A byte of the one is somewhere in the other; without it they are still permutations. */
  lemma Without(a: seq<Byte>, b: seq<Byte>, c: Byte) returns (x: seq<Byte>, y: seq<Byte>)
    requires multiset(a) == multiset(b + [c])
    ensures a == x + [c] + y && multiset(x + y) == multiset(b)
  {
    assert c in multiset(b + [c]);
    assert c in a;
    var i :| 0 <= i < |a| && a[i] == c;
    x, y := a[..i], a[i + 1..];
    assert a == x + [c] + y;
    assert multiset(x + y) + multiset{c} == multiset(b) + multiset{c} by {
      assert multiset(a) == multiset(x + y) + multiset{c};
      assert multiset(b + [c]) == multiset(b) + multiset{c};
    }
    Cancel(multiset(x + y), multiset(b), c);
  }

  lemma Cancel(a: multiset<Byte>, b: multiset<Byte>, c: Byte)
    requires a + multiset{c} == b + multiset{c}
    ensures a == b
  {
    assert forall x :: (a + multiset{c})[x] == a[x] + multiset{c}[x] && (b + multiset{c})[x] == b[x] + multiset{c}[x];
    assert forall x :: a[x] == b[x];
  }

  /** The order of the bytes does not matter. */
  lemma {:induction false} TotalOfPermutation(a: seq<Byte>, b: seq<Byte>)
    requires multiset(a) == multiset(b)
    ensures Total(a) == Total(b)
    decreases |b|
  {
    if b == [] {
      assert |multiset(a)| == 0;
    } else {
      var n := |b| - 1;
      assert b == b[..n] + [b[n]];
      var x, y := Without(a, b[..n], b[n]);
      TotalWithout(x, b[n], y);
      TotalOfPermutation(x + y, b[..n]);
    }
  }

  // ---- Adding ----

  function Add(x: Word, y: Word): Word {
    (x + y) % WORD
  }

  lemma AddTotal(c: nat, t: nat, x: nat)
    ensures ((c + t) % WORD + x) % WORD == (c + t + x) % WORD
  {
  }

  datatype Lanes = Lanes(s0: Word, s1: Word, s2: Word, s3: Word, s4: Word, s5: Word, s6: Word, s7: Word)
  {
    function Sum(): nat {
      s0 + s1 + s2 + s3 + s4 + s5 + s6 + s7
    }

    /** Eight independent additions. */
    function Plus(m: seq<Byte>, b: nat): Lanes
      requires b + 8 <= |m|
    {
      Lanes(Add(s0, m[b]), Add(s1, m[b + 1]), Add(s2, m[b + 2]), Add(s3, m[b + 3]),
            Add(s4, m[b + 4]), Add(s5, m[b + 5]), Add(s6, m[b + 6]), Add(s7, m[b + 7]))
    }
  }

  lemma Wrapped(x: Word, y: Byte) returns (k: nat)
    ensures Add(x, y) == x + y - WORD * k
  {
    k := if x + y < WORD then 0 else 1;
  }

  lemma PlusTotal(s: Lanes, m: seq<Byte>, b: nat)
    requires b + 8 <= |m| && s.Sum() % WORD == Total(m[..b]) % WORD
    ensures s.Plus(m, b).Sum() % WORD == Total(m[..b + 8]) % WORD
  {
    hide Total, BytesAt, Lanes.Sum, Lanes.Plus;
    EightBytes(m, b);
    var k := PlusWraps(s, m, b);
    SameModulo(s.Sum(), Total(m[..b]), BytesAt(m, b), k);
  }

  function BytesAt(m: seq<Byte>, b: nat): nat
    requires b + 8 <= |m|
  {
    m[b] as int + m[b + 1] as int + m[b + 2] as int + m[b + 3] as int
    + m[b + 4] as int + m[b + 5] as int + m[b + 6] as int + m[b + 7] as int
  }

  lemma EightBytes(m: seq<Byte>, b: nat)
    requires b + 8 <= |m|
    ensures Total(m[..b + 8]) == Total(m[..b]) + BytesAt(m, b)
  {
    forall i | b <= i < b + 8
      ensures Total(m[..i + 1]) == Total(m[..i]) + m[i]
    {
      assert m[..i + 1][..i] == m[..i];
    }
  }

  lemma PlusWraps(s: Lanes, m: seq<Byte>, b: nat) returns (k: nat)
    requires b + 8 <= |m|
    ensures s.Plus(m, b).Sum() == s.Sum() + BytesAt(m, b) - WORD * k
  {
    var k0 := Wrapped(s.s0, m[b]);
    var k1 := Wrapped(s.s1, m[b + 1]);
    var k2 := Wrapped(s.s2, m[b + 2]);
    var k3 := Wrapped(s.s3, m[b + 3]);
    var k4 := Wrapped(s.s4, m[b + 4]);
    var k5 := Wrapped(s.s5, m[b + 5]);
    var k6 := Wrapped(s.s6, m[b + 6]);
    var k7 := Wrapped(s.s7, m[b + 7]);
    k := k0 + k1 + k2 + k3 + k4 + k5 + k6 + k7;
  }

  lemma SameModulo(x: int, t: int, d: int, k: int)
    requires x % WORD == t % WORD
    ensures (x + d - WORD * k) % WORD == (t + d) % WORD
  {
  }

  /** Bytes beyond the last 64 or fewer go through the lanes. */
  method AttBlock(c0: Word, m: seq<Byte>) returns (c: Word)
    ensures c == (c0 + Total(m)) % WORD
  {
    c := c0;
    var b, n := 0, |m|;
    var s := Lanes(0, 0, 0, 0, 0, 0, 0, 0);
    while n > 64
      invariant 0 <= b && 0 <= n && b + n == |m|
      invariant s.Sum() % WORD == Total(m[..b]) % WORD
    {
      ghost var n0 := n;
      for i := 0 to 8
        invariant 0 <= b && b + n == |m| && n == n0 - 8 * i
        invariant s.Sum() % WORD == Total(m[..b]) % WORD
      {
        PlusTotal(s, m, b);
        s := s.Plus(m, b);
        b, n := b + 8, n - 8;
      }
    }
    c := (c + s.Sum()) % WORD;
    SameModulo(s.Sum(), Total(m[..b]), c0, 0);
    while b < |m|
      invariant 0 <= b <= |m| && c == (c0 + Total(m[..b])) % WORD
    {
      assert m[..b + 1][..b] == m[..b];
      AddTotal(c0, Total(m[..b]), m[b]);
      c := Add(c, m[b]);
      b := b + 1;
    }
    assert m[..b] == m;
  }

  // ---- Folding ----

  /** The two halves added, twice, and masked. */
  function Fold(sum: Word): int {
    var c := sum % 0x1_0000 + sum / 0x1_0000 % 0x1_0000;
    var c' := c % 0x1_0000 + c / 0x1_0000;
    c' % 0x1_0000
  }

  /** One fold. */
  function Once(c: nat): nat {
    c % 0x1_0000 + c / 0x1_0000
  }

  lemma OnceIsSmall(c: nat)
    ensures c < 0x1_0000_0000 ==> Once(c) <= 2 * 0xffff
    ensures c <= 2 * 0xffff ==> Once(c) < 0x1_0000
  {
  }

  lemma FoldIsOnceTwice(sum: Word)
    ensures Fold(sum) == Once(Once(sum)) < 0x1_0000
  {
    OnceIsSmall(sum);
    OnceIsSmall(Once(sum));
    assert sum / 0x1_0000 % 0x1_0000 == sum / 0x1_0000;
  }

  lemma OnceKeeps(c: nat)
    ensures Once(c) % 0xffff == c % 0xffff && (Once(c) == 0 <==> c == 0)
  {
    Multiple(c / 0x1_0000, c % 0x1_0000);
  }

  lemma Multiple(h: nat, l: nat)
    ensures (h * 0x1_0000 + l) % 0xffff == (h + l) % 0xffff
  {
    assert h * 0x1_0000 + l == h * 0xffff + (h + l);
  }

  /** The result has 16 bits, is the sum modulo 65535, and is zero only for zero. */
  lemma FoldIsModulo65535(sum: Word)
    ensures 0 <= Fold(sum) < 0x1_0000
    ensures Fold(sum) % 0xffff == sum % 0xffff
    ensures Fold(sum) == 0 <==> sum == 0
  {
    hide Once, Fold;
    FoldIsOnceTwice(sum);
    OnceKeeps(sum);
    OnceKeeps(Once(sum));
  }

  /** The whole run, for any split into calls. */
  method Att(chunks: seq<seq<Byte>>) returns (sum: int)
    ensures sum == Fold(Total(Flat(chunks)) % WORD)
  {
    var c: Word := 0;
    for i := 0 to |chunks|
      invariant c == Total(Flat(chunks[..i])) % WORD
    {
      FlatNext(chunks, i);
      TotalAppend(Flat(chunks[..i]), chunks[i]);
      AddTotal(0, Total(Flat(chunks[..i])), Total(chunks[i]));
      c := AttBlock(c, chunks[i]);
    }
    assert chunks[..|chunks|] == chunks;
    sum := Fold(c);
  }

  /** Neither the order of the bytes nor the split matters. */
  lemma OrderDoesNotMatter(a: seq<seq<Byte>>, b: seq<seq<Byte>>)
    requires multiset(Flat(a)) == multiset(Flat(b))
    ensures Fold(Total(Flat(a)) % WORD) == Fold(Total(Flat(b)) % WORD)
  {
    TotalOfPermutation(Flat(a), Flat(b));
  }
}
