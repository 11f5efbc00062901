/** The join utility in its default mode: one forward scan of each sorted file, replaying equal groups of file 2. */
module MergeJoin {
  import opened Names
  import opened Options

  /** A record: the bytes of its join field, and the rest. */
  datatype Rec = Rec(key: string, payload: string)

  function Memcmp(a: string, b: string, n: nat): (r: int)
    requires n <= |a| && n <= |b|
    decreases n
  {
    if n == 0 then 0
    else if a[0] != b[0] then a[0] as int - b[0] as int
    else Memcmp(a[1..], b[1..], n - 1)
  }

  /** The comparison of the two join fields, in the source's order of tests. */
  function KeyCompare(k1: string, k2: string): int {
    var n1, n2 := |k1|, |k2|;
    var n := if n1 < n2 then n1 else n2;
    if n == 0 then
      (if n1 < n2 then -1 else if n1 > n2 then 1 else 0)
    else
      var first := k1[0] as int - k2[0] as int;
      if first != 0 then first
      else
        var rest := Memcmp(k1, k2, n);
        if rest != 0 then rest else n1 - n2
  }

  lemma {:induction false} MemcmpThenLength(a: string, b: string)
    ensures var m := Memcmp(a, b, if |a| < |b| then |a| else |b|);
      && (Strcmp(a, b) < 0 <==> m < 0 || (m == 0 && |a| < |b|))
      && (Strcmp(a, b) == 0 <==> m == 0 && |a| == |b|)
  {
    if a != [] && b != [] && a[0] == b[0] {
      MemcmpThenLength(a[1..], b[1..]);
    }
  }

  /** The field comparison orders keys as strcmp orders strings. */
  lemma KeyCompareIsStrcmp(a: string, b: string)
    ensures KeyCompare(a, b) < 0 <==> Less(a, b)
    ensures KeyCompare(a, b) == 0 <==> a == b
    ensures KeyCompare(a, b) > 0 <==> Less(b, a)
  {
    MemcmpThenLength(a, b);
    StrcmpSign(a, b);
  }

  ghost predicate KeySorted(s: seq<Rec>) {
    forall i, j :: 0 <= i < j < |s| ==> !Less(s[j].key, s[i].key)
  }

  /** An input file; offsets count records. */
  class File {
    const recs: seq<Rec>
    var next: nat

    ghost predicate Valid()
      reads this
    {
      next <= |recs|
    }

    constructor (recs: seq<Rec>)
      ensures this.recs == recs && next == 0
    {
      this.recs := recs;
      next := 0;
    }

    /** The next record, or None at the end of the file. */
    method GetRec() returns (r: Option<Rec>)
      requires Valid()
      modifies this`next
      ensures Valid()
      ensures old(next) < |recs| ==> r == Some(recs[old(next)]) && next == old(next) + 1
      ensures old(next) == |recs| ==> r == None && next == old(next)
    {
      if next < |recs| {
        r := Some(recs[next]);
        next := next + 1;
      } else {
        r := None;
      }
    }

    method Seek(offset: nat)
      requires offset <= |recs|
      modifies this`next
      ensures next == offset
    {
      next := offset;
    }
  }

  type Pair = (Rec, Rec)

  /** The reference: every record of file 1, in order, with every matching record of file 2, in order. */
  function NestedLoop(a: seq<Rec>, b: seq<Rec>): seq<Pair> {
    if a == [] then [] else NestedLoop(a[..|a| - 1], b) + Row(a[|a| - 1], b)
  }

  function Row(r: Rec, b: seq<Rec>): seq<Pair> {
    if b == [] then []
    else Row(r, b[..|b| - 1]) + (if r.key == b[|b| - 1].key then [(r, b[|b| - 1])] else [])
  }

  lemma NestedLoopStep(a: seq<Rec>, b: seq<Rec>, i: nat)
    requires i < |a|
    ensures NestedLoop(a[..i + 1], b) == NestedLoop(a[..i], b) + Row(a[i], b)
  {
    assert a[..i + 1][..i] == a[..i];
  }

  lemma RowStep(r: Rec, b: seq<Rec>, j: nat)
    requires j < |b|
    ensures Row(r, b[..j + 1]) == Row(r, b[..j]) + (if r.key == b[j].key then [(r, b[j])] else [])
  {
    assert b[..j + 1][..j] == b[..j];
  }

  lemma {:induction false} RowNone(r: Rec, b: seq<Rec>, j: nat)
    requires j <= |b| && forall k :: 0 <= k < j ==> b[k].key != r.key
    ensures Row(r, b[..j]) == []
  {
    if j > 0 {
      RowNone(r, b, j - 1);
      RowStep(r, b, j - 1);
    }
  }

  lemma {:induction false} RowEnd(r: Rec, b: seq<Rec>, j: nat)
    requires j <= |b| && forall k :: j <= k < |b| ==> b[k].key != r.key
    ensures Row(r, b) == Row(r, b[..j])
    decreases |b| - j
  {
    if j < |b| {
      RowEnd(r, b, j + 1);
      RowStep(r, b, j);
    } else {
      assert b[..j] == b;
    }
  }

  ghost predicate Before(b: seq<Rec>, lo: nat, hi: nat, key: string) {
    hi <= |b| && forall k :: lo <= k < hi ==> Less(b[k].key, key)
  }

  ghost predicate Same(b: seq<Rec>, lo: nat, hi: nat, key: string) {
    hi <= |b| && forall k :: lo <= k < hi ==> b[k].key == key
  }

  /**
   Where the loop stands: r1 is record i of file 1 and r2 record j of file 2.
   While a group is being emitted lo is its start; hi is where the scan went on before the last rewind.
   */
  ghost predicate Scan(a: seq<Rec>, b: seq<Rec>, i: nat, j: nat, lo: int, hi: int) {
    && i < |a| && j < |b| && -1 <= lo < |b| && -1 <= hi < |b|
    && (lo < 0 ==> Before(b, 0, j, a[i].key))
    && (lo >= 0 ==> lo < j && Before(b, 0, lo, a[i].key) && Same(b, lo, j, a[i].key))
    && (lo < 0 && hi >= 0 ==> j <= hi && NoneAbove(b, hi, b[j].key))
  }

  ghost predicate NoneAbove(b: seq<Rec>, hi: nat, key: string) {
    hi <= |b| && forall k :: 0 <= k < hi ==> !Less(key, b[k].key)
  }

  /** What is written by then: the rows before i and row i up to j. */
  ghost function Written(a: seq<Rec>, b: seq<Rec>, i: nat, j: nat): seq<Pair>
    requires i < |a| && j <= |b|
  {
    NestedLoop(a[..i], b) + Row(a[i], b[..j])
  }

  lemma KeysOrdered(a: string, b: string, c: string)
    ensures !Less(b, a) && !Less(c, b) ==> !Less(c, a)
    ensures Less(a, b) && !Less(c, b) ==> Less(a, c)
    ensures !Less(b, a) && Less(b, c) ==> Less(a, c)
    ensures Less(a, b) ==> !Less(b, a) && a != b
    ensures !Less(a, b) && !Less(b, a) ==> a == b
  {
    StrcmpSign(a, b);
    StrcmpSign(b, c);
    StrcmpSign(a, c);
    if Less(a, b) && Less(b, c) { LessTransitive(a, b, c); }
    if Less(c, a) && Less(a, b) { LessTransitive(c, a, b); }
    if Less(b, c) && Less(c, a) { LessTransitive(b, c, a); }
  }

  /** A larger key of file 1 leaves behind whatever a smaller one did. */
  lemma BeforeGrows(a: seq<Rec>, b: seq<Rec>, hi: nat, i: nat, i': nat)
    requires KeySorted(a) && i <= i' < |a| && Before(b, 0, hi, a[i].key)
    ensures Before(b, 0, hi, a[i'].key)
  {
    forall k | 0 <= k < hi
      ensures Less(b[k].key, a[i'].key)
    {
      KeysOrdered(b[k].key, a[i].key, a[i'].key);
    }
  }

  /** Equal keys: the pair belongs to the row. */
  lemma StepEqual(a: seq<Rec>, b: seq<Rec>, i: nat, j: nat, lo: int, hi: int)
    requires Scan(a, b, i, j, lo, hi)
    requires a[i].key == b[j].key
    ensures Written(a, b, i, j) + [(a[i], b[j])] == Written(a, b, i, j + 1)
    ensures var lo' := if lo < 0 then j else lo;
      && Before(b, 0, lo', a[i].key) && Same(b, lo', j + 1, a[i].key)
      && (j + 1 < |b| ==> Scan(a, b, i, j + 1, lo', hi))
  {
    RowStep(a[i], b, j);
  }

  lemma NoneEqualFrom(b: seq<Rec>, j: nat, key: string)
    requires KeySorted(b) && j <= |b| && (j < |b| ==> Less(key, b[j].key))
    ensures forall k :: j <= k < |b| ==> b[k].key != key
  {
    forall k | j <= k < |b|
      ensures b[k].key != key
    {
      KeysOrdered(key, b[j].key, b[k].key);
      StrcmpSign(key, key);
    }
  }

  /** Nothing from j on matches record i any more: its row is complete. */
  lemma RowComplete(a: seq<Rec>, b: seq<Rec>, i: nat, j: nat)
    requires KeySorted(b) && i < |a| && j <= |b|
    requires j < |b| ==> Less(a[i].key, b[j].key)
    ensures Written(a, b, i, j) == NestedLoop(a[..i + 1], b)
  {
    NoneEqualFrom(b, j, a[i].key);
    RowEnd(a[i], b, j);
    NestedLoopStep(a, b, i);
  }

  lemma NothingMatched(a: seq<Rec>, b: seq<Rec>, i: nat, j: nat)
    requires i < |a| && Before(b, 0, j, a[i].key)
    ensures Written(a, b, i, j) == NestedLoop(a[..i], b)
  {
    RowNotBefore(a, b, i, j);
  }

  /** The group that starts at lo is over at hi: replay it for the next record of file 1. */
  lemma StepRewind(a: seq<Rec>, b: seq<Rec>, i: nat, lo: nat, hi: nat)
    requires KeySorted(a) && KeySorted(b) && i + 1 < |a| && lo <= hi < |b|
    requires Before(b, 0, lo, a[i].key) && Same(b, lo, hi, a[i].key) && b[lo].key == a[i].key
    ensures Scan(a, b, i + 1, lo, -1, hi)
    ensures Written(a, b, i + 1, lo) == NestedLoop(a[..i + 1], b)
  {
    BeforeGrows(a, b, lo, i, i + 1);
    NothingMatched(a, b, i + 1, lo);
    forall k | 0 <= k < hi
      ensures !Less(b[lo].key, b[k].key)
    {
      KeysOrdered(b[k].key, b[lo].key, b[k].key);
    }
  }

  lemma RowNotBefore(a: seq<Rec>, b: seq<Rec>, i: nat, j: nat)
    requires i < |a| && Before(b, 0, j, a[i].key)
    ensures Row(a[i], b[..j]) == []
  {
    forall k | 0 <= k < j
      ensures b[k].key != a[i].key
    {
      KeysOrdered(b[k].key, a[i].key, a[i].key);
    }
    RowNone(a[i], b, j);
  }

  /** Record i is below record j: go on with record i + 1. */
  lemma StepLess(a: seq<Rec>, b: seq<Rec>, i: nat, j: nat, hi: int)
    requires KeySorted(a) && Scan(a, b, i, j, -1, hi) && i + 1 < |a|
    ensures Scan(a, b, i + 1, j, -1, hi)
    ensures Written(a, b, i + 1, j) == NestedLoop(a[..i + 1], b)
  {
    BeforeGrows(a, b, j, i, i + 1);
    NothingMatched(a, b, i + 1, j);
  }

  /** Record i is above record j, hence above everything before the place the scan goes on from. */
  lemma StepGreater(a: seq<Rec>, b: seq<Rec>, i: nat, j: nat, lo: int, hi: int)
    requires KeySorted(b) && Scan(a, b, i, j, lo, hi)
    requires Less(b[j].key, a[i].key)
    ensures lo < 0
    ensures var j' := if hi >= 0 then hi else j + 1;
      && Before(b, 0, j', a[i].key)
      && Written(a, b, i, j) == Written(a, b, i, j') == NestedLoop(a[..i], b)
      && (j' < |b| ==> Scan(a, b, i, j', -1, -1))
  {
    if lo >= 0 { GroupNotAbove(b, lo, j, a[i].key); }
    AllBefore(a, b, i, j, hi);
    NothingMatched(a, b, i, j);
    NothingMatched(a, b, i, if hi >= 0 then hi else j + 1);
  }

  lemma GroupNotAbove(b: seq<Rec>, lo: nat, j: nat, key: string)
    requires KeySorted(b) && lo < j < |b| && b[lo].key == key
    ensures !Less(b[j].key, key)
  {
  }

  lemma AllBefore(a: seq<Rec>, b: seq<Rec>, i: nat, j: nat, hi: int)
    requires KeySorted(b) && i < |a| && j < |b| && -1 <= hi < |b| && Less(b[j].key, a[i].key)
    requires hi >= 0 ==> NoneAbove(b, hi, b[j].key)
    ensures Before(b, 0, if hi >= 0 then hi else j + 1, a[i].key)
  {
    forall k | 0 <= k < if hi >= 0 then hi else j + 1
      ensures Less(b[k].key, a[i].key)
    {
      KeysOrdered(b[k].key, b[j].key, a[i].key);
    }
  }

  /** Once record i is above all of file 2, so are the records after it. */
  lemma {:induction false} RestUnmatched(a: seq<Rec>, b: seq<Rec>, i: nat)
    requires KeySorted(a) && i < |a| && Before(b, 0, |b|, a[i].key)
    ensures NestedLoop(a, b) == NestedLoop(a[..i], b)
    decreases |a| - i
  {
    NestedLoopStep(a, b, i);
    assert b[..|b|] == b;
    RowNotBefore(a, b, i, |b|);
    if i + 1 < |a| {
      BeforeGrows(a, b, |b|, i, i + 1);
      RestUnmatched(a, b, i + 1);
    } else {
      assert a[..i + 1] == a;
    }
  }

  lemma {:induction false} NothingToJoin(a: seq<Rec>)
    ensures NestedLoop(a, []) == []
  {
    if a != [] {
      NothingToJoin(a[..|a| - 1]);
    }
  }

  /** Everything the loop knows of sorted inputs. */
  ghost predicate Progress(a: seq<Rec>, b: seq<Rec>, i: nat, j: nat, lo: int, hi: int, out: seq<Pair>) {
    KeySorted(a) && KeySorted(b) ==> Scan(a, b, i, j, lo, hi) && out == Written(a, b, i, j)
  }

  ghost predicate Done(a: seq<Rec>, b: seq<Rec>, out: seq<Pair>) {
    KeySorted(a) && KeySorted(b) ==> out == NestedLoop(a, b)
  }

  /** Row i is complete, and lo is the start of its group if it had one. */
  ghost predicate RowDone(a: seq<Rec>, b: seq<Rec>, i: nat, j: nat, lo: int, hi: int, out: seq<Pair>)
  {
    i < |a| && j < |b| && -1 <= lo <= j &&
    (KeySorted(a) && KeySorted(b) ==>
      && out == NestedLoop(a[..i + 1], b)
      && (lo >= 0 ==> Before(b, 0, lo, a[i].key) && Same(b, lo, j, a[i].key) && b[lo].key == a[i].key)
      && (lo < 0 ==> Scan(a, b, i, j, lo, hi)))
  }

  lemma EqualProgress(a: seq<Rec>, b: seq<Rec>, i: nat, j: nat, lo: int, hi: int, out: seq<Pair>)
    requires i < |a| && j < |b| && -1 <= lo <= j
    requires Progress(a, b, i, j, lo, hi, out) && a[i].key == b[j].key
    ensures j + 1 < |b| ==> Progress(a, b, i, j + 1, if lo < 0 then j else lo, hi, out + [(a[i], b[j])])
    ensures j + 1 == |b| ==> RowDone(a, b, i, j, if lo < 0 then j else lo, hi, out + [(a[i], b[j])])
  {
    if KeySorted(a) && KeySorted(b) {
      StepEqual(a, b, i, j, lo, hi);
      if j + 1 == |b| { RowComplete(a, b, i, j + 1); }
    }
  }

  lemma GreaterProgress(a: seq<Rec>, b: seq<Rec>, i: nat, j: nat, lo: int, hi: int, out: seq<Pair>)
    requires i < |a| && j < |b| && -1 <= hi < |b|
    requires Progress(a, b, i, j, lo, hi, out) && Less(b[j].key, a[i].key)
    ensures var j' := if hi >= 0 then hi else j + 1;
      && (j' < |b| ==> Progress(a, b, i, j', -1, -1, out))
      && (j' == |b| ==> Done(a, b, out))
  {
    if KeySorted(a) && KeySorted(b) {
      StepGreater(a, b, i, j, lo, hi);
      if hi < 0 && j + 1 == |b| { RestUnmatched(a, b, i); }
    }
  }

  lemma LessProgress(a: seq<Rec>, b: seq<Rec>, i: nat, j: nat, lo: int, hi: int, out: seq<Pair>)
    requires i < |a| && j < |b| && -1 <= lo <= j
    requires Progress(a, b, i, j, lo, hi, out) && Less(a[i].key, b[j].key)
    ensures RowDone(a, b, i, j, lo, hi, out)
  {
    if KeySorted(a) && KeySorted(b) {
      RowComplete(a, b, i, j);
    }
  }

  lemma NextRow(a: seq<Rec>, b: seq<Rec>, i: nat, j: nat, lo: int, hi: int, out: seq<Pair>)
    requires RowDone(a, b, i, j, lo, hi, out)
    ensures i + 1 == |a| ==> Done(a, b, out)
    ensures i + 1 < |a| && lo >= 0 ==> Progress(a, b, i + 1, lo, -1, j, out)
    ensures i + 1 < |a| && lo < 0 ==> Progress(a, b, i + 1, j, -1, hi, out)
  {
    if KeySorted(a) && KeySorted(b) {
      if i + 1 == |a| {
        assert a[..i + 1] == a;
      } else if lo >= 0 {
        StepRewind(a, b, i, lo, j);
      } else {
        StepLess(a, b, i, j, hi);
      }
    }
  }

  lemma FirstProgress(a: seq<Rec>, b: seq<Rec>)
    ensures a != [] && b != [] ==> Progress(a, b, 0, 0, -1, -1, [])
    ensures a == [] || b == [] ==> Done(a, b, [])
  {
    if b == [] { NothingToJoin(a); }
  }

  /** The end of the loop body: rewind file 2 if a group was emitted, and go on with the next record of file 1. */
  method Advance(f1: File, f2: File, r2: Option<Rec>, lo: int, hi: int, ghost i: nat, ghost j: nat, ghost out: seq<Pair>)
    returns (r1': Option<Rec>, r2': Option<Rec>, hi': int, ghost j': nat)
    requires f1 != f2 && f1.Valid() && f2.Valid() && i == f1.next - 1 && i < |f1.recs|
    requires RowDone(f1.recs, f2.recs, i, j, lo, hi, out) && -1 <= hi < |f2.recs|
    requires j == f2.next - 1 && (r2 == Some(f2.recs[j]) || (r2 == None && lo >= 0))
    modifies f1`next, f2`next
    ensures f1.Valid() && f2.Valid() && -1 <= hi' < |f2.recs|
    ensures r1' == None ==> Done(f1.recs, f2.recs, out)
    ensures r1'.Some? ==>
      && f1.next == i + 2 && i + 1 < |f1.recs| && r1' == Some(f1.recs[i + 1])
      && j' < |f2.recs| && f2.next == j' + 1 && r2' == Some(f2.recs[j'])
      && Progress(f1.recs, f2.recs, i + 1, j', -1, hi', out)
  {
    NextRow(f1.recs, f2.recs, i, j, lo, hi, out);
    r2', hi', j' := r2, hi, j;
    if lo >= 0 {
      hi' := f2.next - 1;
      f2.Seek(lo);
      r2' := f2.GetRec();
      j' := lo;
    }
    r1' := f1.GetRec();
  }

  /**
   The whole scan.  It ends for any two inputs, whatever their order; on key-sorted inputs
   it emits the nested-loop join, despite the rewinds.
   */
  method Join(f1: File, f2: File) returns (status: int, out: seq<Pair>)
    requires f1 != f2 && f1.next == 0 && f2.next == 0
    modifies f1`next, f2`next
    ensures status == 0
    ensures forall p :: p in out ==> p.0 in f1.recs && p.1 in f2.recs && p.0.key == p.1.key
    ensures KeySorted(f1.recs) && KeySorted(f2.recs) ==> out == NestedLoop(f1.recs, f2.recs)
  {
    hide Progress, KeyCompare;
    status, out := 0, [];
    ghost var a, b := f1.recs, f2.recs;
    var lo, hi := -1, -1;
    FirstProgress(a, b);
    var r1 := f1.GetRec();
    var r2: Option<Rec> := None;
    if r1.Some? {
      r2 := f2.GetRec();
    }
    if r1.None? || r2.None? {
      return;
    }
    ghost var i: nat, j: nat := 0, 0;
    while true
      invariant i == f1.next - 1 && j == f2.next - 1 && i < |a| && j < |b|
      invariant r1 == Some(a[i]) && r2 == Some(b[j])
      invariant -1 <= lo <= j && -1 <= hi < |b|
      invariant forall p :: p in out ==> p.0 in a && p.1 in b && p.0.key == p.1.key
      invariant Progress(a, b, i, j, lo, hi, out)
      decreases |a| - i, if hi >= 0 then 1 else 0, |b| - j
    {
      var cmp := KeyCompare(r1.value.key, r2.value.key);
      KeyCompareIsStrcmp(r1.value.key, r2.value.key);
      if cmp == 0 {
        EqualProgress(a, b, i, j, lo, hi, out);
        out := out + [(r1.value, r2.value)];
        if lo < 0 {
          lo := f2.next - 1;
        }
        r2 := f2.GetRec();
        if r2.Some? {
          j := j + 1;
          continue;
        }
      } else if cmp > 0 {
        GreaterProgress(a, b, i, j, lo, hi, out);
        if hi >= 0 {
          f2.Seek(hi);
          hi := -1;
        }
        lo := -1;
        r2 := f2.GetRec();
        if r2.Some? {
          j := f2.next - 1;
          continue;
        }
      } else {
        LessProgress(a, b, i, j, lo, hi, out);
      }
      if lo < 0 && r2.None? {
        break;
      }
      r1, r2, hi, j := Advance(f1, f2, r2, lo, hi, i, j, out);
      lo := -1;
      if r1.None? {
        break;
      }
      i := i + 1;
    }
  }
}

/** What the nested-loop join has in it, record by record. */
module JoinPairs {
  import opened MergeJoin

  lemma {:induction false} RowMultiplicity(r: Rec, b: seq<Rec>, x: Rec, y: Rec)
    ensures multiset(Row(r, b))[(x, y)] == if r == x && x.key == y.key then multiset(b)[y] else 0
  {
    if b != [] {
      var n := |b| - 1;
      RowMultiplicity(r, b[..n], x, y);
      assert b == b[..n] + [b[n]];
    }
  }

  lemma Added<T>(a: seq<T>, b: seq<T>, x: T)
    ensures multiset(a + b)[x] == multiset(a)[x] + multiset(b)[x]
  {
  }

  lemma Single<T>(r: T, x: T)
    ensures multiset([r])[x] == if r == x then 1 else 0
  {
  }

  function Product(m: nat, k: nat): nat {
    m * k
  }

  lemma OneMore(m: nat, k: nat)
    ensures Product(m + 1, k) == Product(m, k) + k
  {
  }

  /** How often the two records would be paired if their keys are equal. */
  function Wanted(a: seq<Rec>, b: seq<Rec>, x: Rec, y: Rec): nat {
    if x.key == y.key then Product(multiset(a)[x], multiset(b)[y]) else 0
  }

  lemma WantedNext(a: seq<Rec>, r: Rec, b: seq<Rec>, x: Rec, y: Rec)
    ensures Wanted(a + [r], b, x, y) == Wanted(a, b, x, y) + (if r == x && x.key == y.key then multiset(b)[y] else 0)
  {
    Added(a, [r], x);
    Single(r, x);
    OneMore(multiset(a)[x], multiset(b)[y]);
  }

  lemma PairNone(b: seq<Rec>, x: Rec, y: Rec)
    ensures multiset(NestedLoop([], b))[(x, y)] == 0 == Wanted([], b, x, y)
  {
  }

  lemma PairNext(a: seq<Rec>, r: Rec, b: seq<Rec>, x: Rec, y: Rec)
    requires multiset(NestedLoop(a, b))[(x, y)] == Wanted(a, b, x, y)
    ensures multiset(NestedLoop(a + [r], b))[(x, y)] == Wanted(a + [r], b, x, y)
  {
    hide Wanted, Row;
    assert (a + [r])[..|a|] == a;
    Added(NestedLoop(a, b), Row(r, b), (x, y));
    RowMultiplicity(r, b, x, y);
    WantedNext(a, r, b, x, y);
  }

  /** Each pair with equal keys is there as often as its records are in the files; no other pair is. */
  lemma {:induction false} PairMultiplicity(a: seq<Rec>, b: seq<Rec>, x: Rec, y: Rec)
    ensures multiset(NestedLoop(a, b))[(x, y)] == Wanted(a, b, x, y)
  {
    hide NestedLoop, Wanted;
    if a == [] {
      PairNone(b, x, y);
    } else {
      var n := |a| - 1;
      PairMultiplicity(a[..n], b, x, y);
      PairNext(a[..n], a[n], b, x, y);
      assert a == a[..n] + [a[n]];
    }
  }
}
