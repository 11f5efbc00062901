/** Text-mode checksums: a carriage return directly before a newline is not summed. */
module TextMode {
  import opened Sequences

  const CR := '\r'
  const NL := '\n'

  /** The text as it is summed. */
  function Translated(m: string): string {
    if m == "" then ""
    else if m[0] == CR && |m| > 1 && m[1] == NL then Translated(m[1..])
    else [m[0]] + Translated(m[1..])
  }

  predicate EndsInReturn(m: string) {
    m != "" && m[|m| - 1] == CR
  }

  /** Cutting the text does not matter where the cut is not between the two. */
  lemma {:induction false} TranslatedAppend(a: string, b: string)
    requires !(EndsInReturn(a) && b != "" && b[0] == NL)
    ensures Translated(a + b) == Translated(a) + Translated(b)
  {
    if a == "" {
      assert a + b == b;
    } else {
      assert (a + b)[1..] == a[1..] + b;
      if |a| == 1 {
        assert Translated(a) == [a[0]] + Translated("");
        assert a[1..] + b == b;
      } else {
        TranslatedAppend(a[1..], b);
      }
    }
  }

  /** Text without carriage returns is unchanged. */
  lemma {:induction false} NoReturns(m: string)
    requires '\r' !in m
    ensures Translated(m) == m
  {
    if m != "" {
      NoReturns(m[1..]);
    }
  }

  /** The carriage return of a pair is dropped. */
  lemma PairDropped(a: string, b: string)
    requires '\r' !in a
    ensures Translated(a + "\r\n" + b) == a + "\n" + Translated(b)
  {
    NoReturns(a);
    TranslatedAppend(a, [CR, NL] + b);
    assert a + [CR, NL] + b == a + ([CR, NL] + b);
    assert ([CR, NL] + b)[1..] == [NL] + b && ([NL] + b)[1..] == b;
  }

  /** Any other carriage return is kept. */
  lemma ReturnKept(a: string, b: string)
    requires b == "" || b[0] != '\n'
    ensures Translated(a + "\r" + b) == Translated(a) + "\r" + Translated(b)
  {
    if b == "" {
      TranslatedLast(a);
      assert a + "\r" + b == a + [CR];
    } else {
      ReturnBetween(a, b);
    }
  }

  lemma {:induction false} TranslatedLast(a: string)
    ensures Translated(a + [CR]) == Translated(a) + [CR]
  {
    TranslatedAppend(a, [CR]);
    assert Translated([CR]) == [CR] + Translated("");
  }

  /** What has been summed of text m: all, or all but a last carriage return that is looked at again. */
  ghost predicate Summed(m: string, peek: bool, sum: string) {
    if peek then EndsInReturn(m) && sum == Translated(m[..|m| - 1]) else !EndsInReturn(m) && sum == Translated(m)
  }

  /** The index of the first carriage return from p on, or the end. */
  method Find(s: string, p: nat, e: nat) returns (r: nat)
    requires p <= e <= |s|
    ensures p <= r <= e && (r < e ==> s[r] == CR) && forall i :: p <= i < r ==> s[i] != CR
  {
    r := p;
    while r < e && s[r] != CR
      invariant p <= r <= e && forall i :: p <= i < r ==> s[i] != CR
    {
      r := r + 1;
    }
  }

  /** A carriage return that is not the last character is followed by a newline or kept. */
  lemma ReturnFirst(b: string)
    requires |b| > 1 && b[0] == CR
    ensures Translated(b) == (if b[1] == NL then "" else [CR]) + Translated(b[1..])
  {
  }

  /** A return and the text after it, put after other text. */
  lemma ReturnBetween(a: string, b: string)
    requires b != ""
    ensures Translated(a + [CR] + b) == Translated(a) + ((if b[0] == NL then "" else [CR]) + Translated(b))
  {
    assert a + [CR] + b == a + ([CR] + b);
    assert ([CR] + b)[1..] == b;
    TranslatedAppend(a, [CR] + b);
    ReturnFirst([CR] + b);
  }

  lemma Begin(m: string, chunk: string, peek: bool, sum: string)
    requires Summed(m, peek, sum) && chunk != ""
    ensures (sum + (if peek && chunk[0] != NL then [CR] else "")) + Translated(chunk) == Translated(m + chunk)
  {
    if peek {
      var m1 := m[..|m| - 1];
      assert m == m1 + [CR];
      ReturnBetween(m1, chunk);
      Rest(sum, if chunk[0] == NL then "" else [CR], Translated(chunk));
    } else {
      TranslatedAppend(m, chunk);
      assert sum + "" == sum;
    }
  }

  /** Up to and with a carriage return that is not the last character. */
  lemma Piece(a: string, b: string)
    requires |b| > 1 && b[0] == CR && forall i :: 0 <= i < |a| ==> a[i] != CR
    ensures Translated(a + b) == (if b[1] == NL then a else a + [CR]) + Translated(b[1..])
  {
    NoReturns(a);
    TranslatedAppend(a, b);
    ReturnFirst(b);
    Rest(a, if b[1] == NL then "" else [CR], Translated(b[1..]));
    assert a + "" == a;
  }

  lemma PieceOf(chunk: string, p: nat, r: nat)
    requires p <= r && r + 1 < |chunk| && chunk[r] == CR && forall i :: p <= i < r ==> chunk[i] != CR
    ensures Translated(chunk[p..]) ==
            chunk[p..if chunk[r + 1] == NL then r else r + 1] + Translated(chunk[r + 1..])
  {
    var a, b := chunk[p..r], chunk[r..];
    assert chunk[p..] == a + b && b[1..] == chunk[r + 1..];
    Piece(a, b);
    assert chunk[p..r + 1] == a + [CR];
  }

  lemma LastReturn(m: string, chunk: string, p: nat, sum: string)
    requires p < |chunk| && chunk[|chunk| - 1] == CR && forall i :: p <= i < |chunk| - 1 ==> chunk[i] != CR
    requires sum + Translated(chunk[p..]) == Translated(m + chunk)
    ensures Summed(m + chunk, true, sum + chunk[p..|chunk| - 1])
  {
    var w, m1 := chunk[p..|chunk| - 1], m + chunk[..|chunk| - 1];
    assert chunk[p..] == w + [CR] && m + chunk == m1 + [CR];
    NoReturns(w);
    TranslatedLast(w);
    TranslatedLast(m1);
    assert sum + (w + [CR]) == (sum + w) + [CR];
    assert (m + chunk)[..|m + chunk| - 1] == m1;
    assert ((sum + w) + [CR])[..|sum + w|] == sum + w;
  }

  lemma NoReturnLeft(m: string, chunk: string, p: nat, sum: string)
    requires p < |chunk| && forall i :: p <= i < |chunk| ==> chunk[i] != CR
    requires sum + Translated(chunk[p..]) == Translated(m + chunk)
    ensures Summed(m + chunk, false, sum + chunk[p..])
  {
    NoReturns(chunk[p..]);
  }

  /** A return held back from the buffer before is summed unless a newline follows it. */
  method HeldBack(ghost m: string, chunk: string, peek: bool, sum0: string) returns (sum: string)
    requires chunk != "" && Summed(m, peek, sum0)
    ensures sum + Translated(chunk) == Translated(m + chunk)
  {
    Begin(m, chunk, peek, sum0);
    sum := sum0;
    if peek && chunk[0] != NL {
      sum := sum + [CR];
    } else {
      assert sum + "" == sum;
    }
  }

  /** The text up to a return, and the return unless a newline follows it. */
  method SumPiece(ghost whole: string, chunk: string, p: nat, r: nat, sum0: string) returns (sum: string)
    requires p <= r && r + 1 < |chunk| && chunk[r] == CR && forall i :: p <= i < r ==> chunk[i] != CR
    requires sum0 + Translated(chunk[p..]) == whole
    ensures sum + Translated(chunk[r + 1..]) == whole
  {
    PieceOf(chunk, p, r);
    var end := if chunk[r + 1] == NL then r else r + 1;
    Rest(sum0, chunk[p..end], Translated(chunk[r + 1..]));
    sum := sum0 + chunk[p..end];
  }

  /** All pieces but the last, which may end with a return; then r is where that is. */
  method Pieces(ghost whole: string, chunk: string, sum0: string) returns (p: nat, r: nat, sum: string)
    requires chunk != "" && sum0 + Translated(chunk) == whole
    ensures p < |chunk| && p <= r <= |chunk| <= r + 1 && (r < |chunk| ==> chunk[r] == CR)
    ensures forall i :: p <= i < r ==> chunk[i] != CR
    ensures sum + Translated(chunk[p..]) == whole
  {
    p, sum := 0, sum0;
    assert chunk[0..] == chunk;
    r := Find(chunk, p, |chunk|);
    while r + 1 < |chunk|
      invariant p < |chunk| && p <= r <= |chunk| && (r < |chunk| ==> chunk[r] == CR)
      invariant forall i :: p <= i < r ==> chunk[i] != CR
      invariant sum + Translated(chunk[p..]) == whole
      decreases |chunk| - p
    {
      sum := SumPiece(whole, chunk, p, r, sum);
      p := r + 1;
      r := Find(chunk, p, |chunk|);
    }
  }

  /** One buffer. */
  method Buffer(ghost m: string, chunk: string, peek0: bool, sum0: string) returns (peek: bool, sum: string)
    requires chunk != "" && Summed(m, peek0, sum0)
    ensures Summed(m + chunk, peek, sum)
  {
    var p, r;
    sum := HeldBack(m, chunk, peek0, sum0);
    p, r, sum := Pieces(Translated(m + chunk), chunk, sum);
    if r < |chunk| {
      LastReturn(m, chunk, p, sum);
      sum := sum + chunk[p..|chunk| - 1];
      peek := true;
    } else {
      NoReturnLeft(m, chunk, p, sum);
      sum := sum + chunk[p..];
      peek := false;
    }
  }

  lemma Rest(x: string, y: string, z: string)
    ensures x + (y + z) == (x + y) + z
  {
  }

  /** Any text in any split into buffers that are not empty. */
  method Text(chunks: seq<string>) returns (sum: string)
    requires forall i :: 0 <= i < |chunks| ==> chunks[i] != ""
    ensures sum == Translated(Flat(chunks))
  {
    var peek := false;
    sum := "";
    for i := 0 to |chunks|
      invariant Summed(Flat(chunks[..i]), peek, sum)
    {
      FlatNext(chunks, i);
      peek, sum := Buffer(Flat(chunks[..i]), chunks[i], peek, sum);
    }
    assert chunks[..|chunks|] == chunks;
    if peek {
      ghost var m := Flat(chunks);
      TranslatedLast(m[..|m| - 1]);
      assert m == m[..|m| - 1] + [CR];
      sum := sum + [CR];
    }
  }
}
