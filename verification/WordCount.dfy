/** Counting lines and words of a stream that arrives in buffers, with a newline as sentinel in each. */
module WordCount {
  import opened Sequences

  datatype Kind = Word | Space | Newline

  type Text = seq<char>

  /** The character classes of a locale: which characters end a word.  A newline always does. */
  type Classes = char -> bool

  function KindOf(space: Classes, c: char): Kind {
    if c == '\n' then Newline else if space(c) then Space else Word
  }

  // ---- What is counted ----

  function Newlines(m: Text): nat {
    if m == [] then 0 else Newlines(m[..|m| - 1]) + (if m[|m| - 1] == '\n' then 1 else 0)
  }

  /** The kind of the last character; a word cannot be going on before the first. */
  function LastKind(space: Classes, m: Text): Kind {
    if m == [] then Space else KindOf(space, m[|m| - 1])
  }

  /** Words begin where a word character follows none. */
  function Words(space: Classes, m: Text): nat {
    if m == [] then 0
    else
      var k := |m| - 1;
      Words(space, m[..k]) + (if KindOf(space, m[k]) == Word && LastKind(space, m[..k]) != Word then 1 else 0)
  }

  /** Words that have ended: followed by a character that is not of a word. */
  function Ended(space: Classes, m: Text): nat {
    if m == [] then 0
    else
      var k := |m| - 1;
      Ended(space, m[..k]) + (if KindOf(space, m[k]) != Word && LastKind(space, m[..k]) == Word then 1 else 0)
  }

  /** All words but one that is going on have ended. */
  lemma {:induction false} AllWordsEnd(space: Classes, m: Text)
    ensures Words(space, m) == Ended(space, m) + (if LastKind(space, m) == Word then 1 else 0)
  {
    if m != [] {
      AllWordsEnd(space, m[..|m| - 1]);
    }
  }

  // ---- Words is the number of maximal runs ----

  /** A run of characters that are neither spaces nor newlines is one word. */
  lemma {:induction false} OneRun(space: Classes, m: Text)
    requires forall i :: 0 <= i < |m| ==> m[i] != '\n' && !space(m[i])
    ensures Words(space, m) == if m == [] then 0 else 1
  {
    if m != [] {
      OneRun(space, m[..|m| - 1]);
    }
  }

  /** Spaces and newlines are no words. */
  lemma {:induction false} NoWord(space: Classes, m: Text)
    requires forall i :: 0 <= i < |m| ==> m[i] == '\n' || space(m[i])
    ensures Words(space, m) == 0
  {
    if m != [] {
      NoWord(space, m[..|m| - 1]);
    }
  }

  /** A space or a newline separates what comes before it from what comes after. */
  lemma {:induction false} WordsSplit(space: Classes, a: Text, c: char, b: Text)
    requires c == '\n' || space(c)
    ensures Words(space, a + [c] + b) == Words(space, a) + Words(space, b)
  {
    var m := a + [c] + b;
    if b == [] {
      assert m[..|m| - 1] == a;
    } else {
      assert m[..|m| - 1] == a + [c] + b[..|b| - 1];
      WordsSplit(space, a, c, b[..|b| - 1]);
    }
  }

  /** Newlines are counted as often as they occur. */
  lemma {:induction false} NewlinesAreCounted(m: Text)
    ensures Newlines(m) == multiset(m)['\n']
  {
    if m != [] {
      NewlinesAreCounted(m[..|m| - 1]);
      assert m == m[..|m| - 1] + [m[|m| - 1]];
    }
  }

  lemma {:induction false} NewlinesAppend(a: Text, b: Text)
    ensures Newlines(a + b) == Newlines(a) + Newlines(b)
  {
    if b == [] {
      assert a + b == a;
    } else {
      assert (a + b)[..|a + b| - 1] == a + b[..|b| - 1];
      NewlinesAppend(a, b[..|b| - 1]);
    }
  }

  // ---- The lines-only branch ----

  /** One buffer: its last character is replaced by a newline, which stops the search. */
  method LinesOfBuffer(cp: array<char>) returns (n: nat)
    requires cp.Length > 0
    modifies cp
    ensures n == Newlines(old(cp[..]))
  {
    ghost var data := cp[..];
    n := 0;
    var endbuff := cp.Length - 1;
    if cp[endbuff] == '\n' {
      n := n + 1;
    } else {
      cp[endbuff] := '\n';
    }
    ghost var last := n;
    Newlines1(data, endbuff);
    var p := 0;
    while true
      invariant 0 <= p <= endbuff && cp[endbuff] == '\n'
      invariant forall k :: 0 <= k < endbuff ==> cp[k] == data[k]
      invariant n == last + Newlines(data[..p])
      decreases endbuff - p
    {
      Newlines1(data, p);
      p := p + 1;
      if cp[p - 1] == '\n' {
        if p > endbuff {
          break;
        }
        n := n + 1;
      }
    }
    assert data[..endbuff + 1] == data;
  }

  lemma Newlines1(m: Text, k: nat)
    requires k < |m|
    ensures Newlines(m[..k + 1]) == Newlines(m[..k]) + (if m[k] == '\n' then 1 else 0)
  {
    assert m[..k + 1][..k] == m[..k];
  }

  // ---- The words branch ----

  /** The newline that ends what was read so far is counted later, as is a word that is going on. */
  ghost predicate State(space: Classes, m: Text, lasttype: Kind, nlines: nat, nwords: nat) {
    && lasttype == LastKind(space, m)
    && nwords == Ended(space, m)
    && nlines + (if lasttype == Newline then 1 else 0) == Newlines(m)
  }

  lemma NextState(space: Classes, m: Text, c: char)
    ensures LastKind(space, m + [c]) == KindOf(space, c)
    ensures Newlines(m + [c]) == Newlines(m) + (if c == '\n' then 1 else 0)
    ensures Ended(space, m + [c]) ==
            Ended(space, m) + (if KindOf(space, c) != Word && LastKind(space, m) == Word then 1 else 0)
  {
    assert (m + [c])[..|m|] == m;
  }

  /** What has been consumed of a buffer. */
  function Upto(m: Text, t: Text, cp: nat): Text
    requires cp <= |t|
  {
    m + t[..cp]
  }

  lemma UptoNext(space: Classes, m: Text, t: Text, cp: nat)
    requires cp < |t|
    ensures Upto(m, t, cp + 1) == Upto(m, t, cp) + [t[cp]]
    ensures LastKind(space, Upto(m, t, cp + 1)) == KindOf(space, t[cp])
    ensures Newlines(Upto(m, t, cp + 1)) == Newlines(Upto(m, t, cp)) + (if t[cp] == '\n' then 1 else 0)
    ensures Ended(space, Upto(m, t, cp + 1)) == Ended(space, Upto(m, t, cp))
            + (if KindOf(space, t[cp]) != Word && LastKind(space, Upto(m, t, cp)) == Word then 1 else 0)
  {
    assert m + t[..cp + 1] == m + t[..cp] + [t[cp]];
    NextState(space, m + t[..cp], t[cp]);
  }

  /** The word that goes on before the buffer ends with its first character: it was counted at once. */
  function Early(space: Classes, m: Text, t: Text, cp: nat): nat
    requires 0 < |t|
  {
    if cp == 0 && LastKind(space, m) == Word && KindOf(space, t[0]) != Word then 1 else 0
  }

  /** Consumed up to cp, where the kind before is c; the newline c, if it is one, is not yet counted. */
  ghost predicate Scanning(space: Classes, m: Text, t: Text, cp: nat, c: Kind, nlines: int, nwords: nat) {
    && 0 < |t| && cp <= |t|
    && c == LastKind(space, Upto(m, t, cp))
    && nlines + (if c == Newline then 1 else 0) == Newlines(Upto(m, t, cp))
    && nwords == Ended(space, Upto(m, t, cp)) + Early(space, m, t, cp)
  }

  /** Newlines in a row; stops after the sentinel or before another character. */
  method SkipNewlines(space: Classes, ghost m: Text, buff: array<char>, cp0: nat, nlines0: nat, ghost nwords: nat)
    returns (cp: nat, nlines: nat, end: bool)
    requires Scanning(space, m, buff[..], cp0, Newline, nlines0, nwords) && buff[buff.Length - 1] == '\n'
    ensures cp0 <= cp <= buff.Length && (end <==> cp == buff.Length)
    ensures end ==> Scanning(space, m, buff[..], cp, Newline, nlines, nwords)
    ensures !end ==> Scanning(space, m, buff[..], cp, Newline, nlines - 1, nwords) && buff[cp] != '\n' && nlines > 0
  {
    cp, nlines, end := cp0, nlines0, false;
    while true
      invariant cp0 <= cp <= buff.Length
      invariant Scanning(space, m, buff[..], cp, Newline, nlines, nwords)
      decreases buff.Length - cp
    {
      if cp > buff.Length - 1 {
        return cp, nlines, true;
      }
      nlines := nlines + 1;
      if buff[cp] != '\n' {
        return;
      }
      UptoNext(space, m, buff[..], cp);
      cp := cp + 1;
    }
  }

  lemma SentinelLast(space: Classes, m: Text, t: Text, cp: nat)
    requires cp <= |t| && 0 < |t| && t[|t| - 1] == '\n' && LastKind(space, Upto(m, t, cp)) != Newline
    ensures cp < |t|
  {
    if cp == |t| {
      UptoNext(space, m, t, |t| - 1);
    }
  }

  /** One character that does not end a word, or ends one that was counted early. */
  lemma Consume(space: Classes, m: Text, t: Text, cp: nat, c: Kind, nlines: nat, nwords: nat)
    requires Scanning(space, m, t, cp, c, if c == Newline then nlines - 1 else nlines, nwords) && cp < |t|
    requires (c == Word ==> cp == 0) && (c == Newline ==> t[cp] != '\n')
    ensures Scanning(space, m, t, cp + 1, KindOf(space, t[cp]), nlines, nwords)
  {
    UptoNext(space, m, t, cp);
    assert Upto(m, t, 0) == m;
  }

  /** Spaces and newlines, up to and with the first character of a word; or to the end. */
  method SkipSpaces(space: Classes, ghost m: Text, buff: array<char>, cp0: nat, c0: Kind, nlines0: nat, ghost nwords: nat)
    returns (cp: nat, nlines: nat, end: bool)
    requires buff.Length > 0 && buff[buff.Length - 1] == '\n'
    requires Scanning(space, m, buff[..], cp0, c0, nlines0, nwords) && (c0 == Word ==> cp0 == 0)
    ensures cp0 <= cp <= buff.Length
    ensures end ==> cp == buff.Length && Scanning(space, m, buff[..], cp, Newline, nlines, nwords)
    ensures !end ==> cp0 < cp && Scanning(space, m, buff[..], cp, Word, nlines, nwords)
  {
    hide Words, Newlines, Ended, LastKind, Upto, Early;
    cp, nlines, end := cp0, nlines0, false;
    var c := c0;
    while true
      invariant cp0 <= cp <= buff.Length && (c == Word ==> cp == 0)
      invariant Scanning(space, m, buff[..], cp, c, nlines, nwords)
      decreases buff.Length - cp
    {
      if c == Newline {
        cp, nlines, end := SkipNewlines(space, m, buff, cp, nlines, nwords);
        if end {
          return;
        }
      } else {
        SentinelLast(space, m, buff[..], cp);
      }
      Consume(space, m, buff[..], cp, c, nlines, nwords);
      c := KindOf(space, buff[cp]);
      cp := cp + 1;
      if c == Word {
        return;
      }
    }
  }

  /** The rest of a word and the character after it. */
  method SkipWord(space: Classes, ghost m: Text, buff: array<char>, cp0: nat, ghost nlines: nat, ghost nwords: nat)
    returns (cp: nat, c: Kind)
    requires buff.Length > 0 && buff[buff.Length - 1] == '\n'
    requires 0 < cp0 && Scanning(space, m, buff[..], cp0, Word, nlines, nwords)
    ensures cp0 < cp <= buff.Length && c != Word
    ensures Scanning(space, m, buff[..], cp, c, nlines, nwords + 1)
  {
    cp := cp0;
    while true
      invariant cp0 <= cp <= buff.Length && Scanning(space, m, buff[..], cp, Word, nlines, nwords)
      decreases buff.Length - cp
    {
      SentinelLast(space, m, buff[..], cp);
      UptoNext(space, m, buff[..], cp);
      c := KindOf(space, buff[cp]);
      cp := cp + 1;
      if c != Word {
        return;
      }
    }
  }

  /** All of a buffer that ends with the sentinel. */
  method ScanBuffer(space: Classes, ghost m: Text, buff: array<char>, lasttype: Kind, nlines0: nat, nwords0: nat)
    returns (nlines: nat, nwords: nat)
    requires buff.Length > 0 && buff[buff.Length - 1] == '\n'
    requires Scanning(space, m, buff[..], 0, lasttype, nlines0, nwords0)
    ensures nlines + 1 == Newlines(m + buff[..]) && nwords == Ended(space, m + buff[..])
  {
    nlines, nwords := nlines0, nwords0;
    var cp, c, end := 0, lasttype, false;
    while true
      invariant 0 <= cp <= buff.Length && (c == Word ==> cp == 0)
      invariant Scanning(space, m, buff[..], cp, c, nlines, nwords)
      decreases buff.Length - cp
    {
      cp, nlines, end := SkipSpaces(space, m, buff, cp, c, nlines, nwords);
      if end {
        break;
      }
      cp, c := SkipWord(space, m, buff, cp, nlines, nwords);
      nwords := nwords + 1;
    }
    assert Upto(m, buff[..], buff.Length) == m + buff[..];
  }

  method OneCharacter(space: Classes, ghost m: Text, ch: char, lasttype0: Kind, nlines0: nat, nwords0: nat)
    returns (lasttype: Kind, nlines: nat, nwords: nat)
    requires State(space, m, lasttype0, nlines0, nwords0)
    ensures State(space, m + [ch], lasttype, nlines, nwords)
  {
    lasttype, nlines, nwords := lasttype0, nlines0, nwords0;
    NextState(space, m, ch);
    if lasttype == Newline {
      nlines := nlines + 1;
    }
    var c := KindOf(space, ch);
    if c != Word && lasttype == Word {
      nwords := nwords + 1;
    }
    lasttype := c;
  }

  /** One buffer of either branch: a single character, or more with a sentinel over the last. */
  method WordsOfBuffer(space: Classes, ghost m: Text, buff: array<char>, lasttype0: Kind, nlines0: nat, nwords0: nat)
    returns (lasttype: Kind, nlines: nat, nwords: nat)
    requires buff.Length > 0 && State(space, m, lasttype0, nlines0, nwords0)
    modifies buff
    ensures State(space, m + old(buff[..]), lasttype, nlines, nwords)
  {
    hide Words, Newlines, Ended;
    lasttype, nlines, nwords := lasttype0, nlines0, nwords0;
    ghost var data := buff[..];
    if buff.Length == 1 {
      assert data == [buff[0]];
      lasttype, nlines, nwords := OneCharacter(space, m, buff[0], lasttype0, nlines0, nwords0);
      return;
    }
    if lasttype == Word && KindOf(space, buff[0]) != Word {
      nwords := nwords + 1;
    }
    var endbuff := buff.Length - 1;
    var lastchar := buff[endbuff];
    buff[endbuff] := '\n';
    ghost var w := m + data[..endbuff];
    assert Upto(m, buff[..], 0) == m;
    assert m + buff[..] == w + ['\n'] && m + data == w + [lastchar];
    NextState(space, w, '\n');
    NextState(space, w, lastchar);
    nlines, nwords := ScanBuffer(space, m, buff, lasttype, nlines, nwords);
    var c := KindOf(space, buff[endbuff - 1]);
    assert w[|w| - 1] == buff[endbuff - 1];
    lasttype := KindOf(space, lastchar);
    if c == Word && lasttype == Word {
      nwords := nwords - 1;
    }
  }

  // ---- The whole stream ----

  method Reserve(chunk: Text) returns (buff: array<char>)
    ensures fresh(buff) && buff[..] == chunk
  {
    buff := new char[|chunk|](i requires 0 <= i < |chunk| => chunk[i]);
  }

  /** Any text in any split into buffers that are not empty. */
  method Count(space: Classes, words: bool, chunks: seq<Text>) returns (nchars: nat, nwords: nat, nlines: nat)
    requires forall i :: 0 <= i < |chunks| ==> |chunks[i]| > 0
    ensures nchars == |Flat(chunks)| && nlines == Newlines(Flat(chunks))
    ensures words ==> nwords == Words(space, Flat(chunks))
  {
    nchars, nwords, nlines := 0, 0, 0;
    var lasttype := Space;
    for i := 0 to |chunks|
      invariant nchars == |Flat(chunks[..i])|
      invariant words ==> State(space, Flat(chunks[..i]), lasttype, nlines, nwords)
      invariant !words ==> nlines == Newlines(Flat(chunks[..i]))
    {
      FlatNext(chunks, i);
      var buff := Reserve(chunks[i]);
      nchars := nchars + |chunks[i]|;
      if words {
        lasttype, nlines, nwords := WordsOfBuffer(space, Flat(chunks[..i]), buff, lasttype, nlines, nwords);
      } else {
        NewlinesAppend(Flat(chunks[..i]), chunks[i]);
        var n := LinesOfBuffer(buff);
        nlines := nlines + n;
      }
    }
    assert chunks[..|chunks|] == chunks;
    AllWordsEnd(space, Flat(chunks));
    if words {
      if lasttype == Newline {
        nlines := nlines + 1;
      } else if lasttype == Word {
        nwords := nwords + 1;
      }
    }
  }
}
