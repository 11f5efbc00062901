/** Copying the lines of a file in reverse order, reading it backwards one block at a time. */
module RevLine {

  const NL := '\n'

  // ---- What is wanted ----

  /** Offset p is where a line ends. */
  predicate Boundary(m: string, p: nat)
    requires p <= |m|
  {
    p == |m| || (p > 0 && m[p - 1] == NL)
  }

  predicate NoNewline(m: string, i: nat, j: int)
    requires j <= |m|
  {
    forall k :: i <= k < j ==> m[k] != NL
  }

  /** The end of the line that holds offset p, its newline included if it has one. */
  function LineEnd(m: string, p: nat): (e: nat)
    requires p < |m|
    ensures p < e <= |m| && NoNewline(m, p, e - 1) && Boundary(m, e)
    decreases |m| - p
  {
    if m[p] == NL || p + 1 == |m| then p + 1 else LineEnd(m, p + 1)
  }

  /** The lines from offset p on. */
  function Lines(m: string, p: nat): seq<string>
    requires p <= |m|
    decreases |m| - p
  {
    if p == |m| then [] else [m[p..LineEnd(m, p)]] + Lines(m, LineEnd(m, p))
  }

  /** The same lines, last line first. */
  function Reversed(m: string, p: nat): string
    requires p <= |m|
    decreases |m| - p
  {
    if p == |m| then "" else Reversed(m, LineEnd(m, p)) + m[p..LineEnd(m, p)]
  }

  function Join(lines: seq<string>): string {
    if lines == [] then "" else lines[0] + Join(lines[1..])
  }

  function Backwards(lines: seq<string>): seq<string> {
    if lines == [] then [] else Backwards(lines[1..]) + [lines[0]]
  }

  lemma {:induction false} JoinAppend(a: seq<string>, line: string)
    ensures Join(a + [line]) == Join(a) + line
  {
    if a == [] {
      assert a + [line] == [line];
      assert Join([line]) == line + Join([]);
    } else {
      assert (a + [line])[1..] == a[1..] + [line];
      JoinAppend(a[1..], line);
    }
  }

  lemma ConsLine(line: string, lines: seq<string>)
    ensures Join([line] + lines) == line + Join(lines)
    ensures Backwards([line] + lines) == Backwards(lines) + [line]
  {
    assert ([line] + lines)[1..] == lines;
  }

  /** Reversed is the lines themselves, in the opposite order; in their own order they are the file. */
  lemma {:induction false} ReversedIsLinesBackwards(m: string, p: nat)
    requires p <= |m|
    ensures Reversed(m, p) == Join(Backwards(Lines(m, p)))
    ensures m[p..] == Join(Lines(m, p))
    decreases |m| - p
  {
    if p < |m| {
      var e := LineEnd(m, p);
      ReversedIsLinesBackwards(m, e);
      ConsLine(m[p..e], Lines(m, e));
      JoinAppend(Backwards(Lines(m, e)), m[p..e]);
      assert m[p..] == m[p..e] + m[e..];
    }
  }

  /** Lines are not empty, a newline only ends them, and every line but the last has one. */
  lemma {:induction false} LinesMean(m: string, p: nat, i: nat)
    requires p <= |m| && i < |Lines(m, p)|
    ensures var line := Lines(m, p)[i];
      && line != "" && '\n' !in line[..|line| - 1]
      && (i < |Lines(m, p)| - 1 ==> line[|line| - 1] == '\n')
    decreases |m| - p
  {
    if i > 0 { LinesMean(m, LineEnd(m, p), i - 1); }
  }

  /** One line put before lines already reversed. */
  lemma LineBefore(m: string, q: nat, p: nat)
    requires q < p <= |m| && NoNewline(m, q, p - 1) && Boundary(m, p)
    ensures Reversed(m, q) == Reversed(m, p) + m[q..p]
  {
    var e := LineEnd(m, q);
    assert e == p;
  }

  lemma {:induction false} ReversedLength(m: string, p: nat)
    requires p <= |m|
    ensures |Reversed(m, p)| == |m| - p
    decreases |m| - p
  {
    if p < |m| {
      ReversedLength(m, LineEnd(m, p));
    }
  }

  /** Files that differ in an unterminated last byte do not have the same lines in reverse. */
  lemma {:induction false} LastByteMatters(m: string, m': string, p: nat)
    requires p < |m| == |m'| && m[|m| - 1] != NL && m'[|m| - 1] == NL
    requires forall k :: 0 <= k < |m| - 1 ==> m[k] == m'[k]
    ensures Reversed(m, p) != Reversed(m', p)
    decreases |m| - p
  {
    var e := LineEnd(m, p);
    SameLineEnd(m, m', p);
    ReversedLength(m, e);
    ReversedLength(m', e);
    if e == |m| {
      SliceMatters(m, m', p);
      SuffixMatters(Reversed(m, e), m[p..e], Reversed(m', e), m'[p..e]);
    } else {
      LastByteMatters(m, m', e);
      PrefixMatters(Reversed(m, e), m[p..e], Reversed(m', e), m'[p..e]);
    }
  }

  lemma SliceMatters(m: string, m': string, p: nat)
    requires p < |m| == |m'| && m[|m| - 1] != m'[|m| - 1]
    ensures m[p..] != m'[p..] && m[p..|m|] == m[p..] && m'[p..|m|] == m'[p..]
  {
    assert m[p..][|m| - 1 - p] != m'[p..][|m| - 1 - p];
  }

  lemma SuffixMatters(x: string, y: string, x': string, y': string)
    requires |x| == |x'| && y != y'
    ensures x + y != x' + y'
  {
    assert (x + y)[|x|..] == y && (x' + y')[|x|..] == y';
  }

  lemma PrefixMatters(x: string, y: string, x': string, y': string)
    requires |x| == |x'| && x != x'
    ensures x + y != x' + y'
  {
    assert (x + y)[..|x|] == x && (x' + y')[..|x|] == x';
  }

  lemma {:induction false} SameLineEnd(m: string, m': string, p: nat)
    requires p < |m| == |m'|
    requires forall k :: 0 <= k < |m| - 1 ==> m[k] == m'[k]
    ensures LineEnd(m, p) == LineEnd(m', p)
    decreases |m| - p
  {
    if p + 1 < |m| {
      SameLineEnd(m, m', p + 1);
    }
  }

  // ---- What is done ----

  /** The greatest multiple of the block size b below n; b is a power of two in the code, which masks bits. */
  function Rounddown(n: nat, b: nat): nat
    requires n > 0 && b > 0
  {
    (n - 1) - (n - 1) % b
  }

  function Min(x: int, y: int): int {
    if x < y then x else y
  }

  function Max(x: int, y: int): int {
    if x < y then y else x
  }

  /**
   The last block of the file holds one byte, which is not a newline, and the block before has
   a newline: the code takes the byte for a newline that ends a line of the block before.
   */
  predicate LoneByte(file: string, start: nat, b: nat)
    requires b > 0
  {
    && start + 1 < |file|
    && (|file| - 1) % b == 0
    && file[|file| - 1] != NL
    && !NoNewline(file, Max(start, |file| - 1 - b), |file| - 1)
  }

  /** The file as the code takes it to be. */
  function Seen(file: string, start: nat, b: nat): (m: string)
    requires b > 0
    ensures |m| == |file|
  {
    if LoneByte(file, start, b) then file[..|file| - 1] + [NL] else file
  }

  lemma SeenBefore(file: string, start: nat, b: nat, k: nat)
    requires b > 0 && k < |file|
    ensures k < |file| - 1 || !LoneByte(file, start, b) ==> Seen(file, start, b)[k] == file[k]
    ensures k == |file| - 1 && LoneByte(file, start, b) ==> Seen(file, start, b)[k] == NL
  {
  }

  /**
   Everything from end + nleft on has been written; the nleft bytes from end on are the end of
   a line still to be written.
   */
  ghost predicate Written(file: string, start: nat, b: nat, end: nat, nleft: nat, out: string)
    requires b > 0
  {
    && end + nleft <= |file|
    && Boundary(Seen(file, start, b), end + nleft)
    && out == Reversed(Seen(file, start, b), end + nleft)
    && NoNewline(file, end, end + nleft - 1)
  }

  /** The index of the last newline before cp; the sentinel at 0 stops the search. */
  method FindNewline(buff: array<char>, cp: nat) returns (at: nat)
    requires 0 < cp <= buff.Length && buff[0] == NL
    ensures at < cp && buff[at] == NL && forall k :: at < k < cp ==> buff[k] != NL
  {
    at := cp - 1;
    while buff[at] != NL
      invariant at < cp && forall k :: at < k < cp ==> buff[k] != NL
      decreases at
    {
      at := at - 1;
    }
  }

  /** What follows the block of a line that begins in it. */
  function Rest(file: string, end: nat, nleft: nat): string
    requires end + nleft <= |file|
  {
    if nleft == 1 then [NL] else file[end..end + nleft]
  }

  /** The byte taken for a newline is one, or the file is one where that is wrong. */
  ghost predicate Taken(file: string, start: nat, b: nat, end: nat, nleft: nat)
    requires b > 0 && end + nleft <= |file|
  {
    && (LoneByte(file, start, b) ==> end < |file| && (end + nleft == |file| ==> nleft == 1))
    && (nleft == 1 && file[end] != NL ==> end + 1 == |file| && LoneByte(file, start, b))
  }

  lemma LineByte(file: string, start: nat, b: nat, end: nat, nleft: nat, out: string, k: nat)
    requires b > 0 && Written(file, start, b, end, nleft, out) && Taken(file, start, b, end, nleft) && k < end + nleft
    ensures Seen(file, start, b)[k] == if nleft == 1 && k == end then NL else file[k]
  {
    SeenBefore(file, start, b, k);
  }

  lemma LineBytes(file: string, start: nat, b: nat, q: nat, end: nat, nleft: nat, out: string)
    requires b > 0 && q <= end && Written(file, start, b, end, nleft, out) && Taken(file, start, b, end, nleft)
    ensures Seen(file, start, b)[q..end + nleft] == file[q..end] + Rest(file, end, nleft)
  {
    var m := Seen(file, start, b);
    forall k | q <= k < end + nleft
      ensures m[k] == if nleft == 1 && k == end then NL else file[k]
    {
      LineByte(file, start, b, end, nleft, out, k);
    }
    if nleft == 1 {
      assert m[q..end + 1] == file[q..end] + [m[end]];
    } else {
      assert m[q..end + nleft] == file[q..end] + file[end..end + nleft];
    }
  }

  lemma SeenNoNewline(file: string, start: nat, b: nat, i: nat, j: int)
    requires b > 0 && j < |file| && NoNewline(file, i, j)
    ensures NoNewline(Seen(file, start, b), i, j)
  {
    forall k | i <= k < j
      ensures Seen(file, start, b)[k] != NL
    {
      SeenBefore(file, start, b, k);
    }
  }

  /** A line that begins in the block, and what is left of it after the block, are written. */
  lemma LineWritten(file: string, start: nat, b: nat, q: nat, end: nat, nleft: nat, out: string)
    requires b > 0 && q <= end && (nleft == 0 ==> q < end) && Written(file, start, b, end, nleft, out) && Taken(file, start, b, end, nleft)
    requires NoNewline(file, q, end + nleft - 1)
    ensures out + (file[q..end] + Rest(file, end, nleft)) == Reversed(Seen(file, start, b), q)
  {
    SeenNoNewline(file, start, b, q, end + nleft - 1);
    LineBefore(Seen(file, start, b), q, end + nleft);
    LineBytes(file, start, b, q, end, nleft, out);
  }

  lemma LineEnds(file: string, start: nat, b: nat, q: nat, out: string)
    requires b > 0 && 0 < q < |file| && file[q - 1] == NL && out == Reversed(Seen(file, start, b), q)
    ensures Written(file, start, b, q, 0, out)
  {
    SeenBefore(file, start, b, q - 1);
  }

  /** The block file[offset..offset + n], with a newline put over its first byte. */
  ghost predicate Loaded(file: string, offset: nat, n: nat, buff: seq<char>)
  {
    && 0 < n <= |buff| && offset + n <= |file| && buff[0] == NL
    && forall k :: 1 <= k < n ==> buff[k] == file[offset + k]
  }

  /** What the search says about the file. */
  lemma Found(file: string, offset: nat, n: nat, buff: seq<char>, at: nat, cp: nat)
    requires Loaded(file, offset, n, buff) && at < cp <= n && buff[at] == NL
    requires forall k :: at < k < cp ==> buff[k] != NL
    ensures at > 0 ==> file[offset + at] == NL
    ensures NoNewline(file, offset + at + 1, offset + cp)
  {
    forall k | offset + at + 1 <= k < offset + cp
      ensures file[k] != NL
    {
      assert buff[k - offset] == file[k];
    }
  }

  /** Search for the newline before the line that ends at cpold + nleft. */
  method Search(file: string, offset: nat, ghost n: nat, buff: array<char>, cpold: nat, nleft: nat)
    returns (cp: nat)
    requires Loaded(file, offset, n, buff[..]) && offset + cpold + nleft <= |file|
    requires 0 < cpold <= n && (nleft > 0 ==> cpold == n) && (nleft == 0 ==> cpold > 1)
    requires NoNewline(file, offset + cpold, offset + cpold + nleft - 1)
    ensures cp < cpold && (nleft == 0 ==> cp < cpold - 1)
    ensures cp > 0 ==> file[offset + cp] == NL
    ensures NoNewline(file, offset + cp + 1, offset + cpold + nleft - 1)
  {
    var top := if nleft == 0 then cpold - 1 else cpold;
    cp := FindNewline(buff, top);
    Found(file, offset, n, buff[..], cp, top);
  }

  lemma NoNewlineFrom(file: string, i: nat, j: int)
    requires i < |file| && j <= |file| && file[i] != NL && NoNewline(file, i + 1, j)
    ensures NoNewline(file, i, j)
  {
  }

  lemma HasNewline(file: string, offset: nat, n: nat, at: nat)
    requires offset <= at < offset + n <= |file| && file[at] == NL
    ensures !NoNewline(file, offset, offset + n)
  {
  }

  method WriteLine(file: string, ghost start: nat, ghost b: nat, q: nat, end: nat, nleft: nat, out0: string)
    returns (out: string)
    requires b > 0 && 0 < q <= end && (nleft == 0 ==> q < end)
    requires Written(file, start, b, end, nleft, out0) && Taken(file, start, b, end, nleft) && file[q - 1] == NL
    requires NoNewline(file, q, end + nleft - 1)
    ensures Written(file, start, b, q, 0, out)
  {
    out := out0 + (file[q..end] + Rest(file, end, nleft));
    LineWritten(file, start, b, q, end, nleft, out0);
    LineEnds(file, start, b, q, out);
  }

  /**
   One turn of the inner loop: the start of the line that ends at cpold, or the finding that the
   block holds only a part of a line that began in an earlier block.
   */
  method Locate(file: string, offset: nat, ghost n: nat, first: char, buff: array<char>, cpold: nat, nleft: nat)
    returns (cp: nat, stop: bool)
    requires Loaded(file, offset, n, buff[..]) && first == file[offset]
    requires 0 < cpold <= n && (nleft > 0 ==> cpold == n) && offset + cpold + nleft <= |file|
    requires NoNewline(file, offset + cpold, offset + cpold + nleft - 1)
    ensures stop ==> NoNewline(file, offset, offset + cpold + nleft - 1)
    ensures !stop ==> 0 < cp <= cpold && (nleft == 0 ==> cp < cpold) && file[offset + cp - 1] == NL
    ensures !stop ==> NoNewline(file, offset + cp, offset + cpold + nleft - 1)
  {
    if nleft == 0 && cpold == 1 {
      return 0, true;
    }
    cp := Search(file, offset, n, buff, cpold, nleft);
    if cp == 0 && first != NL {
      NoNewlineFrom(file, offset, offset + cpold + nleft - 1);
      return cp, true;
    }
    return cp + 1, false;
  }

  lemma TakenInside(file: string, start: nat, b: nat, end: nat, nleft: nat, q: nat)
    requires b > 0 && end + nleft <= |file| && Taken(file, start, b, end, nleft) && q <= end
    ensures Taken(file, start, b, q, 0)
  {
  }

  /** All the lines that begin in a block that has a newline. */
  method Block(file: string, ghost start: nat, ghost b: nat, offset: nat, n: nat, first: char, buff: array<char>,
               nleft0: nat, out0: string)
    returns (nleft: nat, out: string)
    requires b > 0 && Loaded(file, offset, n, buff[..]) && first == file[offset]
    requires Written(file, start, b, offset + n, nleft0, out0)
    requires (n == 1 && nleft0 == 0) || (!NoNewline(file, offset, offset + n) ==> Taken(file, start, b, offset + n, nleft0))
    ensures nleft > 0 && Written(file, start, b, offset, nleft, out)
    ensures nleft <= n || (NoNewline(file, offset, offset + n) && nleft == nleft0 + n)
  {
    hide Reversed, Rest, Seen;
    out := out0;
    var cp, stop := Locate(file, offset, n, first, buff, n, nleft0);
    if stop {
      nleft := nleft0 + n;
      return;
    }
    HasNewline(file, offset, n, offset + cp - 1);
    TakenInside(file, start, b, offset + n, nleft0, offset + cp);
    out := WriteLine(file, start, b, offset + cp, offset + n, nleft0, out);
    nleft, out := Others(file, start, b, offset, n, first, buff, cp, out);
  }

  /** The lines of a block that end in it. */
  method Others(file: string, ghost start: nat, ghost b: nat, offset: nat, ghost n: nat, first: char, buff: array<char>,
                cp0: nat, out0: string)
    returns (nleft: nat, out: string)
    requires b > 0 && Loaded(file, offset, n, buff[..]) && first == file[offset] && 0 < cp0 <= n
    requires Written(file, start, b, offset + cp0, 0, out0) && Taken(file, start, b, offset + cp0, 0)
    ensures 0 < nleft <= n && Written(file, start, b, offset, nleft, out)
  {
    hide Seen, Rest, Reversed;
    var cp, stop := cp0, false;
    out := out0;
    while true
      invariant 0 < cp <= cp0
      invariant Written(file, start, b, offset + cp, 0, out) && Taken(file, start, b, offset + cp, 0)
      decreases cp
    {
      var q;
      q, stop := Locate(file, offset, n, first, buff, cp, 0);
      if stop {
        return cp, out;
      }
      out := WriteLine(file, start, b, offset + q, offset + cp, 0, out);
      cp := q;
    }
  }

  /** Read a block and put a newline over its first byte. */
  method Load(file: string, offset: nat, n: nat, buff: array<char>) returns (first: char)
    requires 0 < n <= buff.Length && offset + n <= |file|
    modifies buff
    ensures Loaded(file, offset, n, buff[..]) && first == file[offset]
  {
    for i := 0 to n
      invariant forall k :: 0 <= k < i ==> buff[k] == file[offset + k]
    {
      buff[i] := file[offset + i];
    }
    first := buff[0];
    buff[0] := NL;
  }

  /** What is known before the block that ends at end is read. */
  ghost predicate Progress(file: string, start: nat, b: nat, end: nat, nleft: nat)
    requires b > 0 && end <= |file|
  {
    && (end == |file| ==> nleft == 0)
    && (end < |file| ==> nleft > 0 && end % b == 0 && end + nleft <= |file|)
    && (nleft == 1 ==> Boundary(file, end + 1))
    && (LoneByte(file, start, b) && end + nleft == |file| && end < |file| ==> nleft == 1)
  }

  lemma RounddownFacts(n: nat, b: nat)
    requires n > 0 && b > 0
    ensures 0 <= Rounddown(n, b) < n <= Rounddown(n, b) + b && Rounddown(n, b) % b == 0
    ensures (n - 1) % b == 0 ==> Rounddown(n, b) == n - 1
    ensures n % b == 0 ==> Rounddown(n, b) == n - b
  {
    DivMod(n - 1, b);
    if n % b == 0 {
      LastOf(n, n / b, b);
    }
  }

  lemma DivUnique(x: nat, b: nat, q: int, r: nat)
    requires x == b * q + r && r < b
    ensures x / b == q && x % b == r
  {
    var d := q - x / b;
    assert b * d == x % b - r;
    Spread(b, d);
  }

  lemma Spread(b: int, d: int)
    requires b > 0
    ensures d > 0 ==> b * d >= b
    ensures d < 0 ==> b * d <= -b
  {
    if d > 0 {
      NotNegative(b, d - 1);
    } else if d < 0 {
      NotNegative(b, -d - 1);
    }
  }

  lemma NotNegative(x: nat, y: nat)
    ensures 0 <= x * y == y * x
  {
  }

  lemma DivMod(n: nat, b: nat)
    requires b > 0
    ensures (n - n % b) % b == 0 && n % b <= n
  {
    DivUnique(n - n % b, b, n / b, 0);
  }

  lemma LastOf(n: nat, q: nat, b: nat)
    requires b > 0 && n == b * q && n > 0
    ensures (n - 1) % b == b - 1
  {
    DivUnique(n - 1, b, q - 1, b - 1);
  }

  /** A block with a newline is where the byte taken for a newline matters. */
  lemma BlockTaken(file: string, start: nat, b: nat, offset: nat, end: nat, nleft: nat)
    requires b > 0 && start <= offset < end <= |file| && Progress(file, start, b, end, nleft)
    requires offset == Max(start, Rounddown(end, b)) && end + nleft <= |file|
    ensures (end - offset == 1 && nleft == 0) || (!NoNewline(file, offset, end) ==> Taken(file, start, b, end, nleft))
  {
    RounddownFacts(end, b);
  }

  lemma BlockProgress(file: string, start: nat, b: nat, offset: nat, end: nat, nleft: nat, nleft': nat)
    requires b > 0 && start < offset < end <= |file| && Progress(file, start, b, end, nleft)
    requires offset == Rounddown(end, b) && end + nleft <= |file| && offset + nleft' <= |file|
    requires 0 < nleft' && Boundary(Seen(file, start, b), offset + nleft')
    requires nleft' <= end - offset || (NoNewline(file, offset, end) && nleft' == nleft + end - offset)
    ensures Progress(file, start, b, offset, nleft')
  {
    RounddownFacts(end, b);
    SeenBefore(file, start, b, offset);
    LoneProgress(file, start, b, offset, end, nleft, nleft');
  }

  lemma LoneProgress(file: string, start: nat, b: nat, offset: nat, end: nat, nleft: nat, nleft': nat)
    requires b > 0 && start < offset < end <= |file| && Progress(file, start, b, end, nleft)
    requires offset == Rounddown(end, b) && end + nleft <= |file|
    requires nleft' <= end - offset || (NoNewline(file, offset, end) && nleft' == nleft + end - offset)
    ensures LoneByte(file, start, b) && offset + nleft' == |file| ==> nleft' == 1
  {
    RounddownFacts(end, b);
    LoneBlock(file, start, b, offset);
  }

  /** The block before a lone last byte has a newline. */
  lemma LoneBlock(file: string, start: nat, b: nat, offset: nat)
    requires b > 0
    ensures |file| > 1 && start < offset == Rounddown(|file| - 1, b) && LoneByte(file, start, b) ==>
              !NoNewline(file, offset, |file| - 1)
  {
    if |file| > 1 {
      RounddownFacts(|file| - 1, b);
    }
  }

  /** The line at the start of the region is written from the file as it is. */
  lemma FirstLineWritten(file: string, start: nat, b: nat, end: nat, nleft: nat, nleft': nat, out: string)
    requires b > 0 && start < end <= |file| && Progress(file, start, b, end, nleft) && end + nleft <= |file|
    requires Rounddown(end, b) <= start && nleft' > 0 && Written(file, start, b, start, nleft', out)
    requires nleft' <= end - start || (NoNewline(file, start, end) && nleft' == nleft + end - start)
    ensures out + file[start..start + nleft'] == Reversed(Seen(file, start, b), start)
  {
    var m := Seen(file, start, b);
    FirstLineNotLone(file, start, b, end, nleft, nleft');
    forall k | start <= k < start + nleft'
      ensures m[k] == file[k]
    {
      SeenBefore(file, start, b, k);
    }
    LineBefore(m, start, start + nleft');
    assert m[start..start + nleft'] == file[start..start + nleft'];
  }

  lemma FirstLineNotLone(file: string, start: nat, b: nat, end: nat, nleft: nat, nleft': nat)
    requires b > 0 && start < end <= |file| && Progress(file, start, b, end, nleft) && end + nleft <= |file|
    requires Rounddown(end, b) <= start
    requires nleft' <= end - start || (NoNewline(file, start, end) && nleft' == nleft + end - start)
    ensures start + nleft' == |file| ==> !LoneByte(file, start, b)
  {
    RounddownFacts(end, b);
  }

  /** Blocks from the last to the one that holds start. */
  method Blocks(file: string, start: nat, b: nat, buff: array<char>) returns (out: string)
    requires b > 0 && start < |file| && buff.Length == b
    modifies buff
    ensures out == Reversed(Seen(file, start, b), start)
  {
    hide Seen;
    out := "";
    var nleft := 0;
    var offset: int := Rounddown(|file|, b);
    ghost var end, before := |file|, 0;
    RounddownFacts(end, b);
    while true
      invariant start < end <= |file| && offset == Rounddown(end, b)
      invariant Written(file, start, b, end, nleft, out) && Progress(file, start, b, end, nleft)
      decreases end
    {
      RounddownFacts(end, b);
      var at := if offset < start then start else offset;
      var n := Min(b - (at - offset), |file| - at);
      var first := Load(file, at, n, buff);
      BlockTaken(file, start, b, at, end, nleft);
      before := nleft;
      nleft, out := Block(file, start, b, at, n, first, buff, nleft, out);
      if at <= start {
        break;
      }
      BlockProgress(file, start, b, at, end, before, nleft);
      end := at;
      offset := offset - b;
      RounddownFacts(end, b);
    }
    FirstLineWritten(file, start, b, end, before, nleft, out);
    out := out + file[start..start + nleft];
  }

  /**
   The lines from start on, in reverse order, if and only if the last byte of the file is not one
   that would be taken for a newline.
   */
  method RevLine(file: string, start: nat, b: nat) returns (out: string)
    requires b > 0
    ensures start < |file| ==> (out == Reversed(file, start) <==> !LoneByte(file, start, b))
    ensures start < |file| ==> out == Reversed(Seen(file, start, b), start)
    ensures start >= |file| ==> out == ""
  {
    if |file| <= start {
      return "";
    }
    var buff := new char[b](i => NL);
    out := Blocks(file, start, b, buff);
    if LoneByte(file, start, b) {
      LastByteMatters(file, Seen(file, start, b), start);
    }
  }

  /** A region that ends with a newline is never mistaken. */
  lemma TerminatedIsRight(file: string, start: nat, b: nat)
    requires b > 0 && start < |file| && file[|file| - 1] == NL
    ensures !LoneByte(file, start, b)
  {
  }

  /** Three bytes in blocks of two: the region a, newline, b comes out as newline, a, newline. */
  lemma LoneByteExample()
    ensures LoneByte("a\nb", 0, 2) && Reversed(Seen("a\nb", 0, 2), 0) == "\na\n" && Reversed("a\nb", 0) == "ba\n"
  {
    var m, m' := "a\nb", Seen("a\nb", 0, 2);
    assert m[1] == NL;
    assert m' == "a\n\n";
    LineBefore(m, 2, 3);
    LineBefore(m', 2, 3);
    LineBefore(m, 0, 2);
    LineBefore(m', 0, 2);
  }
}
