/** The last lines of a file, found by scanning backwards in blocks, and of a pipe, kept in two buffers. */
module TailLines {

  // ---- Lines ----

  /** How many of the characters from i up to j end a line. */
  function Delims(m: string, delim: char, i: nat, j: nat): nat
    requires i <= j <= |m|
    decreases j - i
  {
    if i == j then 0 else (if m[i] == delim then 1 else 0) + Delims(m, delim, i + 1, j)
  }

  lemma {:induction false} DelimsSplit(m: string, delim: char, i: nat, k: nat, j: nat)
    requires i <= k <= j <= |m|
    ensures Delims(m, delim, i, j) == Delims(m, delim, i, k) + Delims(m, delim, k, j)
    decreases k - i
  {
    if i < k {
      DelimsSplit(m, delim, i + 1, k, j);
    }
  }

  /** The last line counts even if nothing ends it. */
  function Unended(m: string, delim: char, p: nat): nat
    requires p <= |m|
  {
    if p < |m| && m[|m| - 1] != delim then 1 else 0
  }

  /** The number of lines from offset p on. */
  function Lines(m: string, delim: char, p: nat): nat
    requires p <= |m|
  {
    Delims(m, delim, p, |m|) + Unended(m, delim, p)
  }

  predicate LineStart(m: string, delim: char, first: nat, p: nat)
    requires first <= p <= |m|
  {
    p == first || p == |m| || m[p - 1] == delim
  }

  function Min(x: nat, y: nat): nat {
    if x < y then x else y
  }

  /** From p on there are the last number lines, or all if there are fewer. */
  predicate IsTail(m: string, delim: char, first: nat, number: nat, p: nat) {
    && first <= p <= |m|
    && LineStart(m, delim, first, p)
    && Lines(m, delim, p) == Min(number, Lines(m, delim, first))
  }

  lemma DelimLast(m: string, delim: char, p: nat, q: nat)
    requires p < q <= |m| && m[q - 1] == delim
    ensures Delims(m, delim, p, q) > 0
  {
    DelimsSplit(m, delim, p, q - 1, q);
    assert Delims(m, delim, q - 1, q) == 1 + Delims(m, delim, q, q);
  }

  /** There is only one such offset. */
  lemma TailIsUnique(m: string, delim: char, first: nat, number: nat, p: nat, q: nat)
    requires IsTail(m, delim, first, number, p) && IsTail(m, delim, first, number, q)
    ensures p == q
  {
    if p < q {
      TailIsNotLater(m, delim, first, number, p, q);
    } else if q < p {
      TailIsNotLater(m, delim, first, number, q, p);
    }
  }

  lemma TailIsNotLater(m: string, delim: char, first: nat, number: nat, p: nat, q: nat)
    requires IsTail(m, delim, first, number, p) && first <= p < q <= |m| && LineStart(m, delim, first, q)
    ensures Lines(m, delim, q) < Lines(m, delim, p)
  {
    DelimsSplit(m, delim, p, q, |m|);
    if m[q - 1] == delim {
      DelimLast(m, delim, p, q);
    }
  }

  // ---- A file ----

  /** Scanned back to offset q, with left lines still to find. */
  ghost predicate Scanned(m: string, delim: char, first: nat, number: nat, q: nat, left: int) {
    && first <= q <= |m| && 0 <= left
    && left + Delims(m, delim, q, |m|) + Unended(m, delim, first) == number
  }

  lemma FoundTail(m: string, delim: char, first: nat, number: nat, q: nat)
    requires first <= q < |m| && m[q] == delim && Scanned(m, delim, first, number, q + 1, 0)
    requires number == 0 ==> m[|m| - 1] == delim
    ensures IsTail(m, delim, first, number, q + 1)
  {
    DelimsSplit(m, delim, first, q + 1, |m|);
    DelimLast(m, delim, first, q + 1);
  }

  lemma WholeTail(m: string, delim: char, first: nat, number: nat, left: int)
    requires first <= |m| && Scanned(m, delim, first, number, first, left)
    ensures IsTail(m, delim, first, number, first)
  {
  }

  /** One block, scanned backwards. */
  method ScanBlock(m: string, delim: char, ghost first: nat, ghost number: nat, offset: nat, last: nat, number0: int)
    returns (found: bool, at: nat, left: int)
    requires first <= offset <= last <= |m| && Scanned(m, delim, first, number, last, number0)
    ensures found ==> first <= at <= |m| && IsTail(m, delim, first, number, at)
    ensures !found ==> Scanned(m, delim, first, number, offset, left)
  {
    var t := last;
    found, at, left := false, 0, number0;
    while t > offset
      invariant offset <= t <= last && Scanned(m, delim, first, number, t, left)
    {
      t := t - 1;
      DelimsSplit(m, delim, t, t + 1, |m|);
      if m[t] == delim {
        if left <= 0 {
          FoundTail(m, delim, first, number, t);
          return true, t + 1, left;
        }
        left := left - 1;
      }
    }
  }

  /** Where the last lines of a file begin, in blocks of size b, from the present offset first on. */
  method TailPos(m: string, delim: char, first: nat, number0: nat, b: nat) returns (p: nat)
    requires b > 0 && first <= |m|
    ensures IsTail(m, delim, first, number0, p)
  {
    var last, number, incomplete := |m|, number0 as int, true;
    while true
      invariant first <= last <= |m|
      invariant incomplete ==> last == |m| && number == number0
      invariant !incomplete ==> Scanned(m, delim, first, number0, last, number)
      decreases last, incomplete
    {
      var offset := if last < first + b then first else last - b;
      if incomplete {
        if last > offset && m[last - 1] != delim {
          if number <= 0 {
            return last;
          }
          number := number - 1;
        }
        incomplete := false;
      }
      var found, at;
      found, at, number := ScanBlock(m, delim, first, number0, offset, last, number);
      if found {
        return at;
      }
      if offset == first {
        break;
      }
      last := offset;
    }
    WholeTail(m, delim, first, number0, number);
    return first;
  }

  // ---- A pipe ----

  /** The offset after the n-th line from i on, or the end. */
  function After(m: string, delim: char, i: nat, n: nat): (j: nat)
    requires i <= |m|
    ensures i <= j <= |m|
    decreases |m| - i
  {
    if n == 0 || i == |m| then i else After(m, delim, i + 1, if m[i] == delim then n - 1 else n)
  }

  /** Moving n lines moves that many, unless there are not as many ended lines. */
  lemma {:induction false} AfterCounts(m: string, delim: char, i: nat, n: nat, j: nat)
    requires i <= j <= |m| && n <= Delims(m, delim, i, j)
    ensures After(m, delim, i, n) <= j && Delims(m, delim, i, After(m, delim, i, n)) == n
    ensures n > 0 ==> i < After(m, delim, i, n) && m[After(m, delim, i, n) - 1] == delim
    decreases |m| - i
  {
    if n > 0 {
      AfterCounts(m, delim, i + 1, if m[i] == delim then n - 1 else n, j);
    }
  }

  /** Only the characters before the end of the n-th line matter. */
  lemma {:induction false} AfterSlice(m: string, delim: char, a: nat, b: nat, d: string, i: nat, n: nat)
    requires a <= b <= |m| && b - a <= |d| && d[..b - a] == m[a..b] && i <= b - a
    requires n <= Delims(m, delim, a + i, b)
    ensures After(d, delim, i, n) == After(m, delim, a + i, n) - a
    decreases b - a - i
  {
    if n > 0 {
      assert d[i] == d[..b - a][i] == m[a + i];
      AfterSlice(m, delim, a, b, d, i + 1, if m[a + i] == delim then n - 1 else n);
    }
  }

  /** What ended lines leave at the end is not moved: the offset after the last ended line. */
  function Ended(m: string, delim: char): (p: nat)
    ensures p <= |m|
  {
    if m == "" || m[|m| - 1] == delim then |m| else Ended(m[..|m| - 1], delim)
  }

  lemma {:induction false} EndedIsEnded(m: string, delim: char)
    ensures var p := Ended(m, delim);
      && Unended(m[..p], delim, 0) == 0 && Delims(m, delim, p, |m|) == 0
      && (Unended(m, delim, 0) == 0 <==> p == |m|)
  {
    var p := Ended(m, delim);
    if m == "" || m[|m| - 1] == delim {
      assert m[..p] == m;
    } else {
      var m' := m[..|m| - 1];
      EndedIsEnded(m', delim);
      assert m'[..p] == m[..p];
      DelimsPrefix(m, delim, |m'|, p);
      DelimsSplit(m, delim, p, |m'|, |m|);
      assert Delims(m, delim, |m'|, |m|) == Delims(m, delim, |m|, |m|);
    }
  }

  lemma {:induction false} DelimsPrefix(m: string, delim: char, k: nat, i: nat)
    requires i <= k <= |m|
    ensures Delims(m[..k], delim, i, k) == Delims(m, delim, i, k)
    decreases k - i
  {
    if i < k {
      DelimsPrefix(m, delim, k, i + 1);
    }
  }

  /** Moving records one by one, as long as there is an ended one. */
  function Moved(m: string, delim: char, i: nat, n: nat): (j: nat)
    requires i <= |m|
    ensures i <= j <= |m|
    decreases n
  {
    if n == 0 || Delims(m, delim, i, |m|) == 0 then i else Moved(m, delim, After(m, delim, i, 1), n - 1)
  }

  lemma {:induction false} AfterOneMore(m: string, delim: char, i: nat, n: nat)
    requires i <= |m| && n > 0
    ensures After(m, delim, i, n) == After(m, delim, After(m, delim, i, 1), n - 1)
    decreases |m| - i
  {
    if i < |m| && m[i] != delim {
      AfterOneMore(m, delim, i + 1, n);
    }
  }

  /** Moving records is moving the lines of the part that ends. */
  lemma {:induction false} MovedIsAfter(m: string, delim: char, d: string, i: nat, n: nat)
    requires d == m[..Ended(m, delim)] && i <= |d|
    ensures Moved(m, delim, i, n) == After(d, delim, i, n)
    decreases n
  {
    EndedIsEnded(m, delim);
    DelimsSplit(m, delim, i, |d|, |m|);
    DelimsPrefix(m, delim, |d|, i);
    if n > 0 {
      if i < |d| {
        DelimLast(d, delim, i, |d|);
        AfterSlice(m, delim, 0, |d|, d, i, 1);
        AfterOneMore(d, delim, i, n);
        MovedIsAfter(m, delim, d, After(d, delim, i, 1), n - 1);
      }
    }
  }

  /** A temporary file: writing goes over what is there and reading begins at pos. */
  class Temp {
    var data: string
    var pos: nat

    ghost predicate Valid()
      reads this
    {
      pos <= |data|
    }

    constructor ()
      ensures data == "" && pos == 0
    {
      data, pos := "", 0;
    }

    method Rewind()
      modifies `pos
      ensures pos == 0
    {
      pos := 0;
    }

    method Write(s: string)
      requires Valid()
      modifies this
      ensures Valid() && pos == old(pos) + |s| && data[..pos] == old(data[..pos]) + s
    {
      var rest := if pos + |s| < |data| then data[pos + |s|..] else "";
      data := data[..pos] + s + rest;
      pos := pos + |s|;
    }

    method SkipLines(n: nat, delim: char)
      requires Valid()
      modifies `pos
      ensures Valid() && pos == After(data, delim, old(pos), n)
    {
      pos := After(data, delim, pos, n);
    }

    method Read(n: nat) returns (s: string)
      requires Valid() && pos + n <= |data|
      modifies `pos
      ensures Valid() && s == data[old(pos)..old(pos) + n] && pos == old(pos) + n
    {
      s := data[pos..pos + n];
      pos := pos + n;
    }
  }

  /**
   The current buffer has m[b..e], the other one m[a..b]; a buffer that has been filled has
   number lines.
   */
  ghost predicate Kept(m: string, delim: char, number: nat, a: nat, b: nat, e: nat, nleft: nat, cur: Temp, other: Temp,
                       curOffset: nat, otherOffset: nat)
    reads cur, other
  {
    && cur != other && cur.Valid() && other.Valid()
    && a <= b <= e <= |m| && 0 <= nleft <= number
    && cur.pos == e - b && cur.data[..e - b] == m[b..e] && Delims(m, delim, b, e) == number - nleft
    && b - a <= |other.data| && other.data[..b - a] == m[a..b] && otherOffset == b - a
    && (b == 0 || Delims(m, delim, a, b) == number)
    && LineStart(m, delim, 0, a) && LineStart(m, delim, 0, b)
    && (nleft == number ==> e == b) && (nleft < number ==> e == |m| && curOffset == e - b)
  }

  /** Without an unended last line, moving lines moves everything or as many lines as asked for. */
  lemma MoveCounts(m: string, delim: char, i: nat, n: nat)
    requires i <= |m| && Unended(m, delim, i) == 0
    ensures
      var j, k := After(m, delim, i, n), Delims(m, delim, i, After(m, delim, i, n));
      k == Min(n, Delims(m, delim, i, |m|)) && (k < n ==> j == |m|) && (k == 0 ==> j == i) && (k > 0 ==> m[j - 1] == delim)
  {
    var all := Delims(m, delim, i, |m|);
    if n <= all {
      AfterCounts(m, delim, i, n, |m|);
    } else {
      AfterAll(m, delim, i, n);
      if i < |m| {
        DelimLast(m, delim, i, |m|);
      }
    }
  }

  lemma {:induction false} AfterAll(m: string, delim: char, i: nat, n: nat)
    requires i <= |m| && n > Delims(m, delim, i, |m|)
    ensures After(m, delim, i, n) == |m|
    decreases |m| - i
  {
    if i < |m| {
      AfterAll(m, delim, i + 1, if m[i] == delim then n - 1 else n);
    }
  }

  lemma Appended(m: string, b: nat, e: nat, j: nat)
    requires b <= e <= j <= |m|
    ensures m[b..e] + m[e..j] == m[b..j]
  {
  }

  /** One move of lines into the current buffer. */
  method Move(ghost m: string, delim: char, number: nat, ghost a: nat, ghost b: nat, ghost e: nat, nleft0: nat, cur: Temp, other: Temp,
              ghost curOffset0: nat, ghost otherOffset: nat, ghost j: nat, piece: string, lines: nat)
    returns (curOffset: nat, nleft: nat)
    requires e <= j <= |m| && piece == m[e..j] && lines == Delims(m, delim, e, j)
    requires Kept(m, delim, number, a, b, e, nleft0, cur, other, curOffset0, otherOffset)
    requires e < j <= |m| && 0 < Delims(m, delim, e, j) <= number && (Delims(m, delim, e, j) < number ==> j == |m|)
    requires m[j - 1] == delim
    modifies cur
    ensures nleft == number - Delims(m, delim, e, j)
    ensures nleft > 0 ==> Kept(m, delim, number, a, b, j, nleft, cur, other, curOffset, otherOffset)
    ensures nleft == 0 ==> Full(m, delim, number, b, j, cur, curOffset) && other.Valid()
  {
    Appended(m, b, e, j);
    cur.Write(piece);
    curOffset := cur.pos;
    nleft := nleft0 - lines;
    assert cur.data[..j - b] == m[b..j];
  }

  /** A buffer that has all the lines it needs. */
  ghost predicate Full(m: string, delim: char, number: nat, b: nat, e: nat, cur: Temp, curOffset: nat)
    reads cur
  {
    && cur.Valid() && b <= e <= |m| && e - b <= |cur.data| && cur.data[..e - b] == m[b..e] && curOffset == e - b
    && Delims(m, delim, b, e) == number && LineStart(m, delim, 0, b) && LineStart(m, delim, 0, e)
  }

  /** The other buffer, rewound, is ready to be written over. */
  method Switch(ghost m: string, delim: char, number: nat, ghost b: nat, ghost e: nat, cur: Temp, other: Temp,
                ghost curOffset: nat, ghost otherOffset: nat)
    requires cur != other && Full(m, delim, number, b, e, cur, curOffset) && other.Valid() && 0 < e
    modifies other`pos
    ensures Kept(m, delim, number, b, e, e, number, other, cur, otherOffset, curOffset)
  {
    other.Rewind();
  }

  lemma Counted(m: string, delim: char, d: string, e: nat, j: nat)
    requires |d| <= |m| && d == m[..|d|] && e <= j <= |d|
    ensures Delims(m, delim, e, j) == Delims(d, delim, e, j) && m[e..j] == d[e..j]
  {
    DelimsPrefix(m, delim, j, e);
    DelimsPrefix(d, delim, j, e);
    assert d[..j] == m[..j];
  }

  /** Lines are written to one buffer until it has enough, then to the other, over what that had. */
  method Fill(m: string, delim: char, number: nat, t0: Temp, t1: Temp)
    returns (fno: nat, offset0: nat, offset1: nat, nleft: nat, ghost a: nat, ghost b: nat, ghost end: nat, ghost d: string)
    requires t0 != t1 && t0.data == "" && t0.pos == 0 && t1.data == "" && t1.pos == 0
    modifies t0, t1
    ensures d == m[..Ended(m, delim)] && (fno == 0 || fno == 1)
    ensures fno == 0 ==> Kept(d, delim, number, a, b, end, nleft, t0, t1, offset0, offset1)
    ensures fno == 1 ==> Kept(d, delim, number, a, b, end, nleft, t1, t0, offset1, offset0)
    ensures if number > 0 then end == |d| else b == 0
  {
    hide Moved, Ended, After;
    fno, offset0, offset1, nleft, a, b := 0, 0, 0, number, 0, 0;
    var e, moved := 0, true;
    d := m[..Ended(m, delim)];
    EndedIsEnded(m, delim);
    while moved
      invariant 0 <= e <= |d|
      invariant fno == 0 || fno == 1
      invariant fno == 0 ==> Kept(d, delim, number, a, b, e, nleft, t0, t1, offset0, offset1)
      invariant fno == 1 ==> Kept(d, delim, number, a, b, e, nleft, t1, t0, offset1, offset0)
      invariant (!moved ==> e == |d| || number == 0) && (number == 0 ==> b == 0)
      decreases |d| - e, moved
    {
      var j := Moved(m, delim, e, number);
      MovedIsAfter(m, delim, d, e, number);
      MoveCounts(d, delim, e, number);
      Counted(m, delim, d, e, j);
      var lines := Delims(m, delim, e, j);
      moved := j > e;
      if moved {
        if fno == 0 {
          offset0, nleft := Move(d, delim, number, a, b, e, nleft, t0, t1, offset0, offset1, j, m[e..j], lines);
          if nleft == 0 {
            Switch(d, delim, number, b, j, t0, t1, offset0, offset1);
            fno, nleft, a, b := 1, number, b, j;
          }
        } else {
          offset1, nleft := Move(d, delim, number, a, b, e, nleft, t1, t0, offset1, offset0, j, m[e..j], lines);
          if nleft == 0 {
            Switch(d, delim, number, b, j, t1, t0, offset1, offset0);
            fno, nleft, a, b := 0, number, b, j;
          }
        }
        e := j;
      }
    }
    end := e;
  }

  /** A suffix that begins at a line and has the wanted number of lines. */
  lemma SuffixIsTail(m: string, delim: char, number: nat, q: nat)
    requires q <= |m| && Unended(m, delim, 0) == 0 && LineStart(m, delim, 0, q)
    requires Delims(m, delim, q, |m|) == number || (q == 0 && Delims(m, delim, 0, |m|) <= number)
    ensures IsTail(m, delim, 0, number, q)
  {
    DelimsSplit(m, delim, 0, q, |m|);
  }

  /** The older buffer has m[x..y] and the newer one m[y..z]; n lines of the older one are dropped. */
  method Finish(ghost m: string, delim: char, n: nat, newer: Temp, older: Temp, newerOffset: nat, olderOffset: nat,
                ghost x: nat, ghost y: nat, ghost z: nat)
    returns (out: string, ghost q: nat)
    requires newer != older && newer.Valid() && older.Valid() && x <= y <= z <= |m|
    requires newerOffset == z - y <= |newer.data| && newer.data[..z - y] == m[y..z]
    requires olderOffset == y - x <= |older.data| && older.data[..y - x] == m[x..y]
    requires newerOffset == 0 ==> olderOffset == 0
    modifies newer`pos, older`pos
    ensures q == Min(x + After(older.data, delim, 0, n), y) && out == m[q..z]
  {
    hide After, Delims;
    q := Min(x + After(older.data, delim, 0, n), y);
    out := "";
    AfterNone(older.data, delim);
    if newerOffset != 0 {
      newer.Rewind();
      older.Rewind();
      if n > 0 {
        older.SkipLines(n, delim);
      }
      if olderOffset > older.pos {
        PieceOf(m, older.data, x, y, older.pos);
        out := older.Read(olderOffset - older.pos);
      }
      PieceOf(m, newer.data, y, z, 0);
      var rest := newer.Read(newerOffset);
      Appended(m, q, y, z);
      out := out + rest;
    }
  }

  lemma AfterNone(m: string, delim: char)
    ensures After(m, delim, 0, 0) == 0
  {
  }

  lemma PieceOf(m: string, data: string, x: nat, y: nat, pos: nat)
    requires x <= y <= |m| && pos <= y - x <= |data| && data[..y - x] == m[x..y]
    ensures data[pos..y - x] == m[x + pos..y]
  {
    assert data[pos..y - x] == data[..y - x][pos..];
  }

  lemma DroppedLines(m: string, delim: char, number: nat, r: nat, a: nat, b: nat, older: string)
    requires 0 < r <= number && a <= b <= |m| && b - a <= |older| && older[..b - a] == m[a..b]
    requires (b == 0 || Delims(m, delim, a, b) == number) && Delims(m, delim, b, |m|) == r && Unended(m, delim, 0) == 0
    ensures IsTail(m, delim, 0, number, Min(a + After(older, delim, 0, r), b))
  {
    if b > 0 {
      AfterSlice(m, delim, a, b, older, 0, r);
      AfterCounts(m, delim, a, r, b);
      var q := After(m, delim, a, r);
      DelimsSplit(m, delim, a, q, b);
      DelimsSplit(m, delim, q, b, |m|);
      SuffixIsTail(m, delim, number, q);
    } else {
      SuffixIsTail(m, delim, number, 0);
    }
  }

  lemma AllLines(m: string, delim: char, number: nat, a: nat, b: nat)
    requires a <= b <= |m| && Unended(m, delim, 0) == 0 && LineStart(m, delim, 0, a)
    requires if number > 0 then b == |m| else b == 0
    requires b == 0 || Delims(m, delim, a, b) == number
    ensures IsTail(m, delim, 0, number, if number > 0 then a else |m|)
  {
    SuffixIsTail(m, delim, number, if number > 0 then a else |m|);
  }

  /** Whether both buffers are needed. */
  method Deliver(ghost m: string, delim: char, number: nat, nleft: nat, cur: Temp, other: Temp, curOffset: nat, otherOffset: nat,
                 ghost a: nat, ghost b: nat, ghost end: nat)
    returns (out: string)
    requires Kept(m, delim, number, a, b, end, nleft, cur, other, curOffset, otherOffset) && Unended(m, delim, 0) == 0
    requires if number > 0 then end == |m| else b == 0
    modifies cur`pos, other`pos
    ensures |out| <= |m| && out == m[|m| - |out|..] && IsTail(m, delim, 0, number, |m| - |out|)
  {
    ghost var q;
    if nleft == number {
      AllLines(m, delim, number, a, b);
      out, q := Finish(m, delim, 0, other, cur, otherOffset, 0, a, a, b);
    } else {
      DroppedLines(m, delim, number, number - nleft, a, b, other.data);
      assert Delims(m, delim, b, |m|) > 0 && Delims(m, delim, b, b) == 0;
      out, q := Finish(m, delim, number - nleft, cur, other, curOffset, otherOffset, a, b, |m|);
    }
  }

  /** The last lines of the part of a pipe that ends: a last line that nothing ends is dropped. */
  method PipeTail(m: string, delim: char, number: nat) returns (out: string)
    ensures
      var d := m[..Ended(m, delim)];
      |out| <= |d| && out == d[|d| - |out|..] && IsTail(d, delim, 0, number, |d| - |out|)
  {
    var t0 := new Temp();
    var t1 := new Temp();
    var fno, offset0, offset1, nleft;
    ghost var a, b, end, d;
    fno, offset0, offset1, nleft, a, b, end, d := Fill(m, delim, number, t0, t1);
    EndedIsEnded(m, delim);
    if fno == 0 {
      out := Deliver(d, delim, number, nleft, t0, t1, offset0, offset1, a, b, end);
    } else {
      out := Deliver(d, delim, number, nleft, t1, t0, offset1, offset0, a, b, end);
    }
  }

  /** The two agree if and only if the last line is ended or no lines are wanted. */
  lemma PipeAgreesWithFile(m: string, delim: char, number: nat, p: nat, out: string)
    requires IsTail(m, delim, 0, number, p)
    requires
      var d := m[..Ended(m, delim)];
      |out| <= |d| && out == d[|d| - |out|..] && IsTail(d, delim, 0, number, |d| - |out|)
    ensures out == m[p..] <==> Unended(m, delim, 0) == 0 || number == 0
  {
    var d := m[..Ended(m, delim)];
    EndedIsEnded(m, delim);
    if Unended(m, delim, 0) == 0 {
      assert d == m;
      TailIsUnique(m, delim, 0, number, p, |m| - |out|);
    } else if number == 0 {
      NoLines(d, delim, |d| - |out|);
    } else {
      UnendedIsInTail(m, delim, number, p);
      if out != "" {
        assert d[|d| - 1] == delim;
        assert d[|d| - |out|..][|out| - 1] == d[|d| - 1];
        assert out[|out| - 1] == delim;
        assert m[p..][|m[p..]| - 1] != delim;
      }
    }
  }

  lemma NoLines(d: string, delim: char, p: nat)
    requires IsTail(d, delim, 0, 0, p) && Unended(d, delim, 0) == 0
    ensures p == |d|
  {
    if p < |d| {
      DelimLast(d, delim, p, |d|);
    }
  }

  lemma UnendedIsInTail(m: string, delim: char, number: nat, p: nat)
    requires IsTail(m, delim, 0, number, p) && number > 0 && Unended(m, delim, 0) == 1
    ensures p < |m|
  {
    assert Lines(m, delim, 0) > 0;
    NothingAtEnd(m, delim);
  }

  lemma NothingAtEnd(m: string, delim: char)
    ensures Lines(m, delim, |m|) == 0
  {
  }
}
