/** Streams cut into chunks, and folds over sequences. */
module Sequences {

  /** The elements of all chunks, in order. */
  function Flat<T>(chunks: seq<seq<T>>): seq<T> {
    if chunks == [] then [] else Flat(chunks[..|chunks| - 1]) + chunks[|chunks| - 1]
  }

  lemma FlatNext<T>(chunks: seq<seq<T>>, i: nat)
    requires i < |chunks|
    ensures Flat(chunks[..i + 1]) == Flat(chunks[..i]) + chunks[i]
  {
    assert chunks[..i + 1][..i] == chunks[..i];
  }

  /** A fold, the first element first. */
  function Run<S, T>(f: (S, T) -> S, s: S, m: seq<T>): S {
    if m == [] then s else f(Run(f, s, m[..|m| - 1]), m[|m| - 1])
  }

  lemma RunNext<S, T>(f: (S, T) -> S, s: S, m: seq<T>, i: nat)
    requires i < |m|
    ensures Run(f, s, m[..i + 1]) == f(Run(f, s, m[..i]), m[i])
  {
    assert m[..i + 1][..i] == m[..i];
  }

  lemma {:induction false} RunAppend<S, T>(f: (S, T) -> S, s: S, m: seq<T>, d: seq<T>)
    ensures Run(f, s, m + d) == Run(f, Run(f, s, m), d)
  {
    if d == [] {
      assert m + d == m;
    } else {
      var k := |d| - 1;
      assert (m + d)[..|m| + k] == m + d[..k] && (m + d)[|m| + k] == d[k];
      RunAppend(f, s, m, d[..k]);
    }
  }
}
