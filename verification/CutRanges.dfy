/** Ranges of bytes as pairs of ints in memory: sorted, merged and turned into gaps and lengths in place. */
module CutRanges {

  /** The largest int, which also marks the end of the list. */
  const HUGE := 0x7fff_ffff

  /** What an int holds: arithmetic wraps around. */
  function Int(x: int): (r: int)
    ensures -HUGE - 1 <= r <= HUGE
    ensures -HUGE - 1 <= x <= HUGE ==> r == x
  {
    (x + HUGE + 1) % 0x1_0000_0000 - HUGE - 1
  }

  lemma IntLess(x: int, y: int)
    ensures Int(Int(x) - y) == Int(x - y)
  {
  }

  lemma IntMore(x: int, y: int)
    ensures Int(x + Int(y)) == Int(x + y)
  {
  }

  lemma IntPast(x: int)
    requires HUGE < x <= 2 * HUGE
    ensures Int(x) < 0
  {
  }

  /** len bytes from index low on. */
  datatype Range = Range(low: int, len: int)
  {
    function End(): int {
      low + len
    }
  }

  predicate Covered(rs: seq<Range>, k: int) {
    exists i :: 0 <= i < |rs| && rs[i].low <= k < rs[i].End()
  }

  /** A range begins at byte index k. */
  ghost predicate Begins(rs: seq<Range>, k: int) {
    exists i :: 0 <= i < |rs| && rs[i].low == k
  }

  // ---- The list in memory: pairs, then HUGE ----

  ghost predicate Pairs(list: seq<int>, at: nat, rs: seq<Range>) {
    && at + 2 * |rs| < |list|
    && forall i :: 0 <= i < |rs| ==> list[at + 2 * i] == rs[i].low && list[at + 2 * i + 1] == rs[i].len
  }

  /** A range that goes past every line: its end does not fit an int, or its length is the end mark. */
  predicate Wide(r: Range) {
    r.End() > HUGE || r.len == HUGE
  }

  /** What the text of a list can give. */
  predicate AllowedOne(r: Range) {
    0 <= r.low < HUGE && 0 <= r.len && (Wide(r) ==> if r.low == 0 then r.len == HUGE else r.len == HUGE - 1)
  }

  ghost predicate Allowed(rs: seq<Range>) {
    forall i :: 0 <= i < |rs| ==> AllowedOne(rs[i])
  }

  /** What a merged list has: only at the start of the line is a length taken for the end mark harmless. */
  predicate ClosedOne(r: Range) {
    0 <= r.low < HUGE && 0 <= r.len && (r.len < HUGE || r.low == 0)
  }

  ghost predicate Closed(rs: seq<Range>) {
    forall i :: 0 <= i < |rs| ==> ClosedOne(rs[i])
  }

  ghost predicate Ordered(rs: seq<Range>) {
    forall i, j :: 0 <= i < j < |rs| ==> rs[i].low <= rs[j].low
  }

  /** Ranges in order with at least one byte between them. */
  ghost predicate Separate(rs: seq<Range>) {
    forall i, j :: 0 <= i < j < |rs| ==> rs[i].End() < rs[j].low
  }

  // ---- Merging ----

  /** The end of the last range written, where a range may still be joined. */
  function Reach(qs: seq<Range>): int {
    if qs == [] then -2 else qs[|qs| - 1].End()
  }

  /** One more range: joined to the last if it begins no later than that ends. */
  function Joined(qs: seq<Range>, r: Range): seq<Range> {
    if r.low <= Reach(qs) && qs != [] then
      var last := qs[|qs| - 1];
      if r.End() > last.End() then qs[|qs| - 1 := Range(last.low, r.End() - last.low)] else qs
    else qs + [r]
  }

  lemma JoinedCovers(qs: seq<Range>, r: Range, k: int)
    requires qs != [] ==> qs[|qs| - 1].low <= r.low
    ensures Covered(Joined(qs, r), k) <==> Covered(qs, k) || r.low <= k < r.End()
  {
    var js := Joined(qs, r);
    if r.low <= Reach(qs) && qs != [] {
      var n := |qs| - 1;
      assert forall i :: 0 <= i < n ==> js[i] == qs[i];
      assert Covered(qs, k) <==> (Covered(qs[..n], k) || qs[n].low <= k < qs[n].End()) by {
        LastRange(qs, k);
      }
      LastRange(js, k);
      assert js[..n] == qs[..n];
    } else {
      LastRange(js, k);
      assert js[..|qs|] == qs;
    }
  }

  lemma LastRange(qs: seq<Range>, k: int)
    requires qs != []
    ensures Covered(qs, k) <==> (Covered(qs[..|qs| - 1], k) || qs[|qs| - 1].low <= k < qs[|qs| - 1].End())
  {
    var n := |qs| - 1;
    if Covered(qs, k) && !(qs[n].low <= k < qs[n].End()) {
      var i :| 0 <= i < |qs| && qs[i].low <= k < qs[i].End();
      assert qs[..n][i] == qs[i];
    }
    if Covered(qs[..n], k) {
      var i :| 0 <= i < n && qs[..n][i].low <= k < qs[..n][i].End();
      assert qs[i] == qs[..n][i];
    }
  }

  /** A wide range begins behind what has been merged, or where its last range begins. */
  predicate Meets(qs: seq<Range>, r: Range) {
    qs == [] || Reach(qs) < r.low || qs[|qs| - 1].low == r.low
  }

  lemma JoinedKeeps(qs: seq<Range>, r: Range)
    requires Closed(qs) && Separate(qs) && Reach(qs) <= HUGE && AllowedOne(r) && (Wide(r) ==> Meets(qs, r))
    requires qs != [] ==> qs[|qs| - 1].low <= r.low
    ensures Closed(Joined(qs, r)) && Separate(Joined(qs, r)) && (!Wide(r) ==> Reach(Joined(qs, r)) <= HUGE)
    ensures 0 < |Joined(qs, r)| <= |qs| + 1 && Joined(qs, r)[|Joined(qs, r)| - 1].low <= r.low
    ensures Wide(r) ==> Joined(qs, r)[|Joined(qs, r)| - 1] == r
  {
    var js, n := Joined(qs, r), |qs|;
    forall i, j | 0 <= i < j < |js|
      ensures js[i].End() < js[j].low
    {
      if j < n {
        assert js[i] == qs[i] && js[j].low == qs[j].low;
      }
    }
  }

  /** What has been merged covers what has been read, in order and apart. */
  ghost predicate Merged(p: seq<Range>, i: nat, qs: seq<Range>) {
    && i <= |p| && |qs| <= i
    && Closed(qs) && Separate(qs)
    && (i > 0 ==> qs != [] && qs[|qs| - 1].low <= p[i - 1].low)
    && (forall k :: Covered(qs, k) <==> Covered(p[..i], k))
  }

  lemma MergedNext(p: seq<Range>, i: nat, qs: seq<Range>)
    requires i < |p| && Ordered(p) && Allowed(p) && Merged(p, i, qs) && Reach(qs) <= HUGE
    requires Wide(p[i]) ==> Meets(qs, p[i])
    ensures Merged(p, i + 1, Joined(qs, p[i])) && (!Wide(p[i]) ==> Reach(Joined(qs, p[i])) <= HUGE)
    ensures Joined(qs, p[i]) != [] && (Wide(p[i]) ==> Joined(qs, p[i])[|Joined(qs, p[i])| - 1] == p[i])
  {
    hide Ordered, Closed, Separate, Covered, Joined, Meets;
    LowerThan(p, i, qs);
    JoinedKeeps(qs, p[i]);
    forall k
      ensures Covered(Joined(qs, p[i]), k) <==> Covered(p[..i + 1], k)
    {
      JoinedCovers(qs, p[i], k);
      LastRange(p[..i + 1], k);
      assert p[..i + 1][..i] == p[..i];
    }
  }

  lemma LowerThan(p: seq<Range>, i: nat, qs: seq<Range>)
    requires i < |p| && Ordered(p) && |qs| <= i && (i > 0 ==> qs != [] && qs[|qs| - 1].low <= p[i - 1].low)
    ensures qs != [] ==> qs[|qs| - 1].low <= p[i].low
  {
    assert i > 0 ==> p[i - 1].low <= p[i].low;
  }

  /** By how much a range goes past the last one, as an int. */
  function Extra(r: Range, range: int): int {
    Int(Int(r.low + r.len) - range)
  }

  /** The list after a step of the merge. */
  function Stepped(list: seq<int>, dp: nat, range: int, r: Range): (after: seq<int>)
    requires dp + 1 < |list| && (r.low <= range ==> 0 < dp)
    ensures |after| == |list|
  {
    if r.low <= range then
      if r.len == HUGE then list[dp - 1 := HUGE]
      else if Extra(r, range) > 0 then list[dp - 1 := Int(list[dp - 1] + Extra(r, range))]
      else list
    else list[dp := r.low][dp + 1 := r.len]
  }

  function SteppedTo(dp: nat, range: int, r: Range): nat {
    if r.low <= range then dp else dp + 2
  }

  function SteppedRange(range: int, r: Range): int {
    if r.low <= range then (if Extra(r, range) > 0 then Int(range + Extra(r, range)) else range)
    else Int(r.low + r.len)
  }

  /** One range read at lp and written at dp or joined to the one before; a length that is the end mark stops the merge. */
  method MergeStep(list: array<int>, lp: nat, dp0: nat, range0: int) returns (dp: nat, range: int, stop: bool)
    requires dp0 <= lp && lp + 1 < list.Length && (list[lp] <= range0 ==> 0 < dp0)
    modifies list
    ensures
      var r := Range(old(list[lp]), old(list[lp + 1]));
      && list[..] == Stepped(old(list[..]), dp0, range0, r) && dp == SteppedTo(dp0, range0, r)
      && (stop <==> r.len == HUGE) && (!stop ==> range == SteppedRange(range0, r))
    ensures forall j :: lp + 2 <= j < list.Length ==> list[j] == old(list[j])
  {
    dp, range, stop := dp0, range0, list[lp + 1] == HUGE;
    if list[lp] <= range {
      if stop {
        list[dp - 1] := HUGE;
        return;
      }
      var c := Int(Int(list[lp] + list[lp + 1]) - range);
      if c > 0 {
        range := Int(range + c);
        list[dp - 1] := Int(list[dp - 1] + c);
      }
    } else {
      range := Int(list[lp] + list[lp + 1]);
      list[dp], list[dp + 1] := list[lp], list[lp + 1];
      dp := dp + 2;
    }
  }

  /** What the list has of the ranges: the last length is an int. */
  function AsStored(qs: seq<Range>): (s: seq<Range>)
    ensures |s| == |qs|
  {
    if qs == [] then [] else qs[|qs| - 1 := Range(qs[|qs| - 1].low, Int(qs[|qs| - 1].len))]
  }

  lemma StoredAsIs(qs: seq<Range>)
    requires qs != [] ==> 0 <= qs[|qs| - 1].len <= HUGE
    ensures AsStored(qs) == qs
  {
  }

  /** A step of the merge stores the ranges merged with the one read. */
  lemma StepStores(list: seq<int>, qs: seq<Range>, r: Range)
    requires Pairs(list, 0, qs) && 2 * |qs| + 2 < |list| && Closed(qs) && AllowedOne(r) && Reach(qs) <= HUGE
    requires qs != [] ==> qs[|qs| - 1].low <= r.low
    ensures
      var range := Reach(qs);
      && Pairs(Stepped(list, 2 * |qs|, range, r), 0, AsStored(Joined(qs, r)))
      && SteppedTo(2 * |qs|, range, r) == 2 * |Joined(qs, r)|
      && (r.len < HUGE ==> if Wide(r) then SteppedRange(range, r) < 0 else SteppedRange(range, r) == Reach(Joined(qs, r)))
  {
    hide SteppedRange, Int, Wide, Pairs, AsStored, Stepped, Extra, Closed;
    StepsTo(qs, r);
    if r.len < HUGE { StepRange(qs, r); }
    if r.low <= Reach(qs) {
      StepJoins(list, qs, r);
    } else {
      StepAppends(list, qs, r);
    }
  }

  lemma StepsTo(qs: seq<Range>, r: Range)
    requires 0 <= r.low
    ensures SteppedTo(2 * |qs|, Reach(qs), r) == 2 * |Joined(qs, r)|
    ensures r.low <= Reach(qs) ==> qs != []
  {
  }

  lemma StepAppends(list: seq<int>, qs: seq<Range>, r: Range)
    requires Pairs(list, 0, qs) && 2 * |qs| + 2 < |list| && AllowedOne(r) && r.low > Reach(qs)
    ensures Joined(qs, r) == qs + [r]
    ensures Pairs(Stepped(list, 2 * |qs|, Reach(qs), r), 0, AsStored(Joined(qs, r)))
  {
    hide Int, Pairs, Extra;
    PairsAppended(list, qs, r);
    StoredAsIs(qs + [r]);
  }

  /** The int the step keeps the end in. */
  lemma StepRange(qs: seq<Range>, r: Range)
    requires Closed(qs) && AllowedOne(r) && Reach(qs) <= HUGE && r.len < HUGE && (qs != [] ==> qs[|qs| - 1].low <= r.low)
    ensures if Wide(r) then SteppedRange(Reach(qs), r) < 0 else SteppedRange(Reach(qs), r) == Reach(Joined(qs, r))
  {
    IntLess(r.low + r.len, Reach(qs));
    IntMore(Reach(qs), r.End() - Reach(qs));
    if r.End() > HUGE { IntPast(r.End()); }
  }

  /** The last length grows by as much as the range goes past it. */
  lemma StepJoins(list: seq<int>, qs: seq<Range>, r: Range)
    requires Pairs(list, 0, qs) && 2 * |qs| + 2 < |list| && Closed(qs) && AllowedOne(r) && Reach(qs) <= HUGE
    requires qs != [] && qs[|qs| - 1].low <= r.low <= Reach(qs)
    ensures Pairs(Stepped(list, 2 * |qs|, Reach(qs), r), 0, AsStored(Joined(qs, r)))
  {
    var n, range := |qs| - 1, Reach(qs);
    PairAt(list, qs, n);
    if r.len == HUGE {
      PairsJoined(list, qs, HUGE);
      StoredAsIs(Joined(qs, r));
    } else {
      ExtraIs(qs[n], r);
      if r.End() > range {
        PairsJoined(list, qs, Int(r.End() - qs[n].low));
      } else {
        StoredAsIs(qs);
      }
    }
  }

  lemma ExtraIs(last: Range, r: Range)
    requires ClosedOne(last) && AllowedOne(r) && last.End() <= HUGE && last.low <= r.low <= last.End() && r.len < HUGE
    ensures Extra(r, last.End()) > 0 <==> r.End() > last.End()
    ensures Int(last.len + Extra(r, last.End())) == Int(r.End() - last.low)
  {
    IntLess(r.low + r.len, last.End());
    IntMore(last.len, r.End() - last.End());
  }

  lemma PairsJoined(list: seq<int>, qs: seq<Range>, len: int)
    requires Pairs(list, 0, qs) && qs != []
    ensures Pairs(list[2 * |qs| - 1 := len], 0, qs[|qs| - 1 := Range(qs[|qs| - 1].low, len)])
  {
  }

  lemma PairsAppended(list: seq<int>, qs: seq<Range>, r: Range)
    requires Pairs(list, 0, qs) && 2 * |qs| + 2 < |list|
    ensures Pairs(list[2 * |qs| := r.low][2 * |qs| + 1 := r.len], 0, qs + [r])
  {
  }

  /**
   A wide range joined in the middle of another one loses its length: what is stored is
   negative or taken for the end of the list.
   */
  lemma JoinedInside(last: Range, r: Range)
    requires AllowedOne(r) && Wide(r) && ClosedOne(last) && last.End() <= HUGE && last.low < r.low <= last.End()
    ensures Unusable(Range(last.low, Int(r.End() - last.low)))
  {
    if r.End() - last.low > HUGE { IntPast(r.End() - last.low); }
  }

  /** A length that is negative, or where it would be taken for the end mark. */
  predicate Unusable(r: Range) {
    r.len < 0 || (r.len == HUGE && r.low > 0)
  }

  lemma PairAt(list: seq<int>, rs: seq<Range>, i: nat)
    requires Pairs(list, 0, rs) && i < |rs|
    ensures 2 * i + 1 < |list| && list[2 * i] == rs[i].low && list[2 * i + 1] == rs[i].len
  {
    assert rs[i] == rs[i];
  }

  /** The first i ranges, joined one after another. */
  ghost function MergeAll(p: seq<Range>, i: nat): (qs: seq<Range>)
    requires i <= |p|
    ensures |qs| <= i
  {
    if i == 0 then [] else Joined(MergeAll(p, i - 1), p[i - 1])
  }

  /** What is stored of a joined wide range is that range, or unusable if it is joined in the middle of another. */
  lemma WideStored(qs: seq<Range>, r: Range)
    requires Closed(qs) && Reach(qs) <= HUGE && AllowedOne(r) && Wide(r) && (qs != [] ==> qs[|qs| - 1].low <= r.low)
    ensures
      var js := Joined(qs, r);
      var last := AsStored(js)[|js| - 1];
      if Meets(qs, r) then last == r else Unusable(last)
  {
    if !Meets(qs, r) {
      JoinedInside(qs[|qs| - 1], r);
    }
  }

  /** The index of the first wide range, if any. */
  ghost predicate FirstWide(p: seq<Range>, w: nat) {
    w <= |p| && (forall j :: 0 <= j < w ==> !Wide(p[j])) && (w < |p| ==> Wide(p[w]))
  }

  lemma {:induction false} MergeAllKeeps(p: seq<Range>, i: nat, w: nat)
    requires i <= w && Ordered(p) && Allowed(p) && FirstWide(p, w)
    ensures Merged(p, i, MergeAll(p, i)) && Reach(MergeAll(p, i)) <= HUGE
  {
    if i > 0 {
      MergeAllKeeps(p, i - 1, w);
      MergedNext(p, i - 1, MergeAll(p, i - 1));
    }
  }

  /** No range that begins before the first wide one reaches to it. */
  ghost predicate Clear(rs: seq<Range>) {
    forall x, y :: x in rs && y in rs && LeastWide(rs, y) && x.low < y.low ==> x.End() < y.low
  }

  ghost predicate LeastWide(rs: seq<Range>, y: Range) {
    Wide(y) && forall z :: z in rs && Wide(z) ==> y.low <= z.low
  }

  lemma FirstIsLeast(p: seq<Range>, w: nat)
    requires Ordered(p) && FirstWide(p, w) && w < |p|
    ensures LeastWide(p, p[w])
  {
    forall z | z in p && Wide(z)
      ensures p[w].low <= z.low
    {
      var j :| 0 <= j < |p| && p[j] == z;
    }
  }

  lemma ClearAt(p: seq<Range>, i: nat, w: nat)
    requires i < w < |p| && Ordered(p) && FirstWide(p, w) && Clear(p)
    ensures p[i].low < p[w].low ==> p[i].End() < p[w].low
  {
    FirstIsLeast(p, w);
    assert p[i] in p && p[w] in p;
  }

  lemma MeetsNext(qs: seq<Range>, r: Range, y: Range)
    requires Meets(qs, y) && (qs != [] ==> qs[|qs| - 1].low <= r.low)
    requires r.low <= y.low && (r.low < y.low ==> r.End() < y.low)
    ensures Meets(Joined(qs, r), y)
  {
  }

  lemma {:induction false} LastLow(p: seq<Range>, i: nat)
    requires 0 < i <= |p| && Ordered(p)
    ensures var qs := MergeAll(p, i); qs != [] && qs[|qs| - 1].low <= p[i - 1].low
  {
    if i > 1 {
      LastLow(p, i - 1);
      InOrder(p, i - 2, i - 1);
    }
  }

  lemma LastBefore(p: seq<Range>, i: nat)
    requires i < |p| && Ordered(p)
    ensures var qs := MergeAll(p, i); qs != [] ==> qs[|qs| - 1].low <= p[i].low
  {
    if i > 0 {
      LastLow(p, i);
      InOrder(p, i - 1, i);
    }
  }

  /** The first i ranges do not begin behind y, and reach to it only if they begin where it does. */
  ghost predicate Unreached(p: seq<Range>, i: nat, y: Range)
    requires i <= |p|
  {
    forall t :: 0 <= t < i ==> p[t].low <= y.low && (p[t].low < y.low ==> p[t].End() < y.low)
  }

  /** Such a range is not joined in the middle of another. */
  lemma {:induction false} UnreachedMeets(p: seq<Range>, i: nat, y: Range)
    requires i <= |p| && Ordered(p) && Unreached(p, i, y)
    ensures Meets(MergeAll(p, i), y)
  {
    hide Ordered, Joined;
    if i > 0 {
      UnreachedMeets(p, i - 1, y);
      LastBefore(p, i - 1);
      MeetsNext(MergeAll(p, i - 1), p[i - 1], y);
    }
  }

  lemma ClearMeets(p: seq<Range>, w: nat)
    requires w < |p| && Ordered(p) && FirstWide(p, w) && Clear(p)
    ensures Meets(MergeAll(p, w), p[w])
  {
    forall t | 0 <= t < w
      ensures p[t].low <= p[w].low && (p[t].low < p[w].low ==> p[t].End() < p[w].low)
    {
      ClearAt(p, t, w);
      InOrder(p, t, w);
    }
    UnreachedMeets(p, w, p[w]);
  }

  /** A range that begins before y and reaches to it. */
  predicate Into(r: Range, y: Range) {
    r.low < y.low <= r.End()
  }

  lemma IntoNext(qs: seq<Range>, r: Range, y: Range)
    requires qs != [] ==> qs[|qs| - 1].low <= r.low
    requires r.low <= y.low && ((qs != [] && Into(qs[|qs| - 1], y)) || Into(r, y))
    ensures var js := Joined(qs, r); js != [] && Into(js[|js| - 1], y)
  {
  }

  lemma {:induction false} IntoStays(p: seq<Range>, i: nat, j: nat, w: nat)
    requires j < i <= w < |p| && Ordered(p) && Into(p[j], p[w])
    ensures var qs := MergeAll(p, i); qs != [] && Into(qs[|qs| - 1], p[w])
  {
    hide Into, Ordered, Joined;
    LastBefore(p, i - 1);
    InOrder(p, i - 1, w);
    if j < i - 1 {
      IntoStays(p, i - 1, j, w);
    }
    IntoNext(MergeAll(p, i - 1), p[i - 1], p[w]);
  }

  lemma Earlier(p: seq<Range>, j: nat, w: nat)
    requires Ordered(p) && j < |p| && w < |p| && p[j].low < p[w].low
    ensures j < w
  {
  }

  lemma NotClear(p: seq<Range>, w: nat) returns (j: nat)
    requires w < |p| && Ordered(p) && FirstWide(p, w) && !Clear(p)
    ensures j < w && Into(p[j], p[w])
  {
    var x, y :| x in p && y in p && LeastWide(p, y) && x.low < y.low && x.End() >= y.low;
    FirstIsLeast(p, w);
    j :| 0 <= j < |p| && p[j] == x;
    assert p[w] in p && y.low == p[w].low;
    Earlier(p, j, w);
  }

  /** The first wide range is not joined in the middle of another if and only if none reaches to it. */
  lemma ClearExactly(p: seq<Range>, w: nat)
    requires w < |p| && Ordered(p) && FirstWide(p, w)
    ensures Meets(MergeAll(p, w), p[w]) <==> Clear(p)
  {
    hide Clear, Ordered, FirstWide;
    if Clear(p) {
      ClearMeets(p, w);
    } else {
      var j := NotClear(p, w);
      IntoStays(p, w, j, w);
    }
  }

  /** What the merge keeps: everything, or up to the first wide range. */
  ghost function Kept(p: seq<Range>, w: nat): seq<Range>
    requires w <= |p|
  {
    MergeAll(p, if w < |p| then w + 1 else w)
  }

  lemma KeptMerged(p: seq<Range>, w: nat)
    requires p != [] && Ordered(p) && Allowed(p) && FirstWide(p, w) && Clear(p)
    ensures Merged(p, if w < |p| then w + 1 else w, Kept(p, w))
    ensures w < |p| ==> Kept(p, w) != [] && Kept(p, w)[|Kept(p, w)| - 1] == p[w]
  {
    hide Clear, Ordered, Merged, Joined;
    MergeAllKeeps(p, w, w);
    if w < |p| {
      ClearMeets(p, w);
      MergedNext(p, w, MergeAll(p, w));
    }
  }

  lemma KeptRanges(p: seq<Range>, w: nat)
    requires p != [] && Ordered(p) && Allowed(p) && FirstWide(p, w) && Clear(p)
    ensures var qs := Kept(p, w);
      Closed(qs) && Separate(qs) && qs != [] && (w < |p| ==> qs[|qs| - 1].len >= HUGE - 1)
    ensures forall k :: k < HUGE - 1 ==> (Covered(Kept(p, w), k) <==> Covered(p, k))
  {
    hide Clear, Ordered, Closed, Separate, Covered, Kept;
    KeptMerged(p, w);
    if w < |p| {
      forall k | k < HUGE - 1
        ensures Covered(p[..w + 1], k) <==> Covered(p, k)
      {
        WideCovers(p, w, k);
      }
    } else {
      assert p[..w] == p;
    }
  }

  lemma WideCovers(p: seq<Range>, w: nat, k: int)
    requires w < |p| && Ordered(p) && Wide(p[w]) && p[w].len >= HUGE - 1 && k < HUGE - 1 && 0 <= p[w].low
    ensures Covered(p[..w + 1], k) <==> Covered(p, k)
  {
    if Covered(p, k) {
      var j :| 0 <= j < |p| && p[j].low <= k < p[j].End();
      assert p[..w + 1][w] == p[w];
      if j <= w { assert p[..w + 1][j] == p[j]; }
    }
    if Covered(p[..w + 1], k) {
      var j :| 0 <= j < w + 1 && p[..w + 1][j].low <= k < p[..w + 1][j].End();
      assert p[j] == p[..w + 1][j];
    }
  }

  lemma JoinedStarts(qs: seq<Range>, r: Range)
    requires Closed(qs) && Separate(qs) && AllowedOne(r) && (qs != [] ==> qs[|qs| - 1].low <= r.low)
    ensures Startable(AsStored(Joined(qs, r)))
  {
    var js, n := AsStored(Joined(qs, r)), |qs|;
    forall i, j | 0 <= i < j < |js|
      ensures js[i].End() < js[j].low
    {
      assert js[i] == qs[i];
      assert j < n ==> js[j].low == qs[j].low;
    }
  }

  /** Ranges apart and in order, whatever the length of the last. */
  ghost predicate Startable(qs: seq<Range>) {
    Separate(qs) && forall i :: 0 <= i < |qs| ==> 0 <= qs[i].low < HUGE && (i + 1 < |qs| ==> 0 <= qs[i].len)
  }

  lemma KeptStarts(p: seq<Range>, w: nat)
    requires p != [] && Ordered(p) && Allowed(p) && FirstWide(p, w)
    ensures Kept(p, w) != [] && Startable(AsStored(Kept(p, w)))
  {
    MergeAllKeeps(p, w, w);
    LastLow(p, if w < |p| then w + 1 else w);
    if w < |p| {
      LastBefore(p, w);
      JoinedStarts(MergeAll(p, w), p[w]);
    }
  }

  /**
   After i ranges, m of them written: they are the ranges joined, or, behind the first wide
   range, whatever the merge makes of those that follow it.
   */
  ghost predicate Merging(list: seq<int>, p: seq<Range>, w: nat, i: nat, m: nat, range: int)
    requires w <= |p|
  {
    && m <= i <= |p| && 2 * |p| < |list|
    && (forall j :: 0 <= j < m ==> list[2 * j] < HUGE)
    && (i <= w ==> m == |MergeAll(p, i)| && range == Reach(MergeAll(p, i)) && Pairs(list, 0, MergeAll(p, i)))
    && (i > w ==> p[w].len < HUGE && Behind(list, AsStored(Kept(p, w)), m, range))
  }

  /** What is written now is behind the ranges kept. */
  ghost predicate Behind(list: seq<int>, qs: seq<Range>, m: nat, range: int) {
    |qs| <= m && Pairs(list, 0, qs) && (range < 0 || m > |qs|)
  }

  lemma MergingNext(list: seq<int>, p: seq<Range>, w: nat, i: nat, m: nat, range: int)
    requires FirstWide(p, w) && i < |p| && Ordered(p) && Allowed(p) && Merging(list, p, w, i, m, range) && p[i].len < HUGE
    ensures m <= i && (p[i].low <= range ==> m > 0)
    ensures
      var m' := if p[i].low <= range then m else m + 1;
      Merging(Stepped(list, 2 * m, range, p[i]), p, w, i + 1, m', SteppedRange(range, p[i]))
  {
    hide SteppedRange, Ordered, Pairs, Reach, Extra, Int, AsStored;
    if i <= w {
      MergingEarly(list, p, w, i, m, range);
    } else {
      BehindNext(list, AsStored(Kept(p, w)), m, range, p[i]);
    }
    EvenFits(list, m, range, p[i]);
  }

  /** Behind the ranges kept a step leaves them alone. */
  lemma BehindNext(list: seq<int>, qs: seq<Range>, m: nat, range: int, r: Range)
    requires Behind(list, qs, m, range) && 2 * m + 1 < |list| && 0 <= r.low && r.len < HUGE
    ensures r.low <= range ==> m > 0
    ensures
      var m' := if r.low <= range then m else m + 1;
      Behind(Stepped(list, 2 * m, range, r), qs, m', SteppedRange(range, r))
  {
    hide Extra, Int;
    PairsKept(list, Stepped(list, 2 * m, range, r), qs);
  }

  lemma EvenFits(list: seq<int>, m: nat, range: int, r: Range)
    requires 2 * m + 1 < |list| && (forall j :: 0 <= j < m ==> list[2 * j] < HUGE) && AllowedOne(r)
    requires r.low <= range ==> m > 0
    ensures
      var list', m' := Stepped(list, 2 * m, range, r), if r.low <= range then m else m + 1;
      forall j :: 0 <= j < m' ==> list'[2 * j] < HUGE
  {
    hide Extra, Int;
    if r.low <= range {
      forall j | 0 <= j < m
        ensures Stepped(list, 2 * m, range, r)[2 * j] < HUGE
      {
        SameEven(list, m, j, Int(list[2 * m - 1] + Extra(r, range)));
        SameEven(list, m, j, HUGE);
      }
    }
  }

  /** A step up to the first wide range stores the ranges joined. */
  lemma MergingEarly(list: seq<int>, p: seq<Range>, w: nat, i: nat, m: nat, range: int)
    requires FirstWide(p, w) && i < |p| && i <= w && Ordered(p) && Allowed(p)
    requires 2 * |p| < |list| && m == |MergeAll(p, i)| && range == Reach(MergeAll(p, i)) && Pairs(list, 0, MergeAll(p, i))
    ensures p[i].low <= range ==> m > 0
    ensures
      var qs, list', range' := MergeAll(p, i + 1), Stepped(list, 2 * m, range, p[i]), SteppedRange(range, p[i]);
      && Pairs(list', 0, AsStored(qs)) && |qs| == (if p[i].low <= range then m else m + 1)
      && (i < w ==> AsStored(qs) == qs && range' == Reach(qs)) && (i == w && p[i].len < HUGE ==> range' < 0)
  {
    hide Stepped, SteppedRange, Pairs, Ordered, AsStored, Joined, Closed, Separate, Covered, Extra, Int;
    MergeAllKeeps(p, i, w);
    LastBefore(p, i);
    StepStores(list, MergeAll(p, i), p[i]);
    if i < w {
      MergeAllKeeps(p, i + 1, w);
      LastFits(p, i + 1, w);
    }
  }

  lemma LastFits(p: seq<Range>, i: nat, w: nat)
    requires 0 < i <= w && Ordered(p) && Allowed(p) && FirstWide(p, w)
    ensures AsStored(MergeAll(p, i)) == MergeAll(p, i)
  {
    MergeAllKeeps(p, i, w);
    StoredAsIs(MergeAll(p, i));
  }

  lemma InOrder(p: seq<Range>, i: nat, j: nat)
    requires Ordered(p) && i < j < |p|
    ensures p[i].low <= p[j].low
  {
  }

  lemma MergingBegins(list: seq<int>, p: seq<Range>, w: nat)
    requires w <= |p| && 2 * |p| < |list|
    ensures Merging(list, p, w, 0, 0, -2)
  {
  }

  lemma LowFits(p: seq<Range>, i: nat)
    requires Allowed(p) && i < |p|
    ensures 0 <= p[i].low < HUGE && p[i].len <= HUGE
  {
  }

  /** A length that is the end mark is that of the first wide range. */
  lemma FullIsFirst(p: seq<Range>, w: nat, i: nat)
    requires FirstWide(p, w) && i < |p| && Ordered(p) && Allowed(p) && p[i].len == HUGE && (i > w ==> p[w].len < HUGE)
    ensures i == w
  {
    if i > w { InOrder(p, w, i); }
  }

  /** The merge stops at such a length, with nothing behind it. */
  lemma MergingStops(list: seq<int>, p: seq<Range>, w: nat, i: nat, m: nat, range: int)
    requires FirstWide(p, w) && i < |p| && Ordered(p) && Allowed(p) && Merging(list, p, w, i, m, range) && p[i].len == HUGE
    ensures i == w && m <= i && (p[i].low <= range ==> m > 0)
    ensures
      var list', m' := Stepped(list, 2 * m, range, p[i]), if p[i].low <= range then m else m + 1;
      2 * m' < |list'| && m' == |Kept(p, w)| && Written(list'[2 * m' := HUGE], AsStored(Kept(p, w)), m')
  {
    hide Stepped, Ordered, Pairs, Reach, Extra, Int, AsStored;
    FullIsFirst(p, w, i);
    MergingEarly(list, p, w, i, m, range);
    EvenFits(list, m, range, p[i]);
    var list', m' := Stepped(list, 2 * m, range, p[i]), if p[i].low <= range then m else m + 1;
    PairsKept(list', list'[2 * m' := HUGE], AsStored(Kept(p, w)));
  }

  lemma MergingEnds(list: seq<int>, p: seq<Range>, w: nat, m: nat, range: int)
    requires FirstWide(p, w) && Ordered(p) && Allowed(p) && p != [] && Merging(list, p, w, |p|, m, range)
    ensures 2 * m < |list| && Written(list[2 * m := HUGE], AsStored(Kept(p, w)), m)
    ensures w == |p| ==> m == |Kept(p, w)|
    ensures w < |p| ==> p[w].len < HUGE
  {
    hide Ordered, Allowed, AsStored;
    if w == |p| { LastFits(p, w, w); }
    PairsKept(list, list[2 * m := HUGE], AsStored(Kept(p, w)));
  }

  lemma SameEven(list: seq<int>, m: nat, j: nat, x: int)
    requires 0 < m && 2 * m <= |list| && j < m
    ensures list[2 * m - 1 := x][2 * j] == list[2 * j]
  {
  }

  lemma PairsKept(list: seq<int>, list': seq<int>, qs: seq<Range>)
    requires Pairs(list, 0, qs) && |list'| == |list| && list'[..2 * |qs|] == list[..2 * |qs|]
    ensures Pairs(list', 0, qs)
  {
    forall i | 0 <= i < |qs|
      ensures list'[2 * i] == qs[i].low && list'[2 * i + 1] == qs[i].len
    {
      assert list'[..2 * |qs|][2 * i] == list[..2 * |qs|][2 * i];
      assert list'[..2 * |qs|][2 * i + 1] == list[..2 * |qs|][2 * i + 1];
    }
  }

  /** The list has the ranges qs, and m in all before the end mark. */
  ghost predicate Written(list: seq<int>, qs: seq<Range>, m: nat) {
    && Pairs(list, 0, qs) && |qs| <= m && 2 * m < |list| && list[2 * m] == HUGE
    && (forall j :: 0 <= j < m ==> list[2 * j] < HUGE)
  }

  /**
   Overlapping and adjacent ranges become one, in place: the write index never passes the read index.
   Behind the first wide range there may be more, unless its length is the end mark.
   */
  method Merge(list: array<int>, ghost p: seq<Range>, ghost w: nat) returns (ghost m: nat)
    requires Pairs(list[..], 0, p) && list[2 * |p|] == HUGE && p != []
    requires Ordered(p) && Allowed(p) && FirstWide(p, w)
    modifies list
    ensures Written(list[..], AsStored(Kept(p, w)), m)
    ensures w == |p| || p[w].len == HUGE ==> m == |Kept(p, w)|
  {
    hide Written, Kept, Stepped, SteppedRange, Allowed, Ordered, Merging, Extra, Int, AsStored;
    var lp, dp, range, stop := 0, 0, -2, false;
    ghost var i, start := 0, list[..];
    m := 0;
    MergingBegins(list[..], p, w);
    while list[lp] != HUGE
      invariant i <= |p| && lp == 2 * i && dp == 2 * m && !stop
      invariant Merging(list[..], p, w, i, m, range)
      invariant forall j :: lp <= j < list.Length ==> list[j] == start[j]
      decreases |p| - i
    {
      PairAt(start, p, i);
      LowFits(p, i);
      if p[i].len == HUGE {
        MergingStops(list[..], p, w, i, m, range);
      } else {
        MergingNext(list[..], p, w, i, m, range);
      }
      m := if p[i].low <= range then m else m + 1;
      dp, range, stop := MergeStep(list, lp, dp, range);
      if stop {
        break;
      }
      i, lp := i + 1, lp + 2;
    }
    if !stop {
      if i < |p| {
        PairAt(start, p, i);
        LowFits(p, i);
      }
      MergingEnds(list[..], p, w, m, range);
    }
    list[dp] := HUGE;
  }

  // ---- Gaps ----

  /** Where the gap before range i begins. */
  function Before(qs: seq<Range>, i: nat): int
    requires i <= |qs|
  {
    if i == 0 then 0 else qs[i - 1].End()
  }

  /** The list as gaps and lengths, up to its end or to a range that goes past every line. */
  ghost predicate Gapped(list: seq<int>, qs: seq<Range>) {
    && 2 * |qs| <= |list| && GappedTo(list, qs, |qs|)
    && ((2 * |qs| < |list| && list[2 * |qs|] == HUGE) || (qs != [] && qs[|qs| - 1].len == HUGE - 1))
  }

  function Gap(qs: seq<Range>, i: nat): int
    requires i < |qs|
  {
    qs[i].low - Before(qs, i)
  }

  ghost predicate GapAt(list: seq<int>, qs: seq<Range>, i: nat)
    requires i < |qs| && 2 * |qs| <= |list|
  {
    list[2 * i] == Gap(qs, i) && list[2 * i + 1] == qs[i].len
  }

  ghost predicate GappedTo(list: seq<int>, qs: seq<Range>, n: nat)
    requires n <= |qs| && 2 * |qs| <= |list|
  {
    forall i :: 0 <= i < n ==> GapAt(list, qs, i)
  }

  lemma GappedNext(list: seq<int>, qs: seq<Range>, n: nat)
    requires n < |qs| && 2 * |qs| <= |list| && GappedTo(list, qs, n)
    requires list[2 * n] == qs[n].low && list[2 * n + 1] == qs[n].len
    ensures GappedTo(list[2 * n := Gap(qs, n)], qs, n + 1)
  {
    hide Gap;
    var list' := list[2 * n := Gap(qs, n)];
    forall i | 0 <= i < n + 1
      ensures GapAt(list', qs, i)
    {
      assert i < n ==> GapAt(list, qs, i);
    }
  }

  lemma GappedKept(list: seq<int>, qs: seq<Range>, i: nat, x: int)
    requires 2 * |qs| <= |list| && GappedTo(list, qs, |qs|) && |qs| <= i && 2 * i < |list|
    ensures GappedTo(list[2 * i := x], qs, |qs|)
  {
    hide Gap;
    var list' := list[2 * i := x];
    forall j | 0 <= j < |qs|
      ensures GapAt(list', qs, j)
    {
      assert GapAt(list, qs, j);
    }
  }

  lemma NoGapYet(list: seq<int>, qs: seq<Range>)
    requires 2 * |qs| <= |list|
    ensures GappedTo(list, qs, 0)
  {
  }

  method OneGap(list: array<int>, lp: nat, n0: int) returns (n: int)
    requires lp + 1 < list.Length
    modifies list
    ensures n == Int(old(list[lp] + list[lp + 1])) && list[..] == old(list[..])[lp := Int(old(list[lp]) - n0)]
  {
    var c := list[lp];
    list[lp] := Int(list[lp] - n0);
    n := Int(c + list[lp + 1]);
  }

  lemma EndFits(qs: seq<Range>, i: nat)
    requires Startable(qs) && i < |qs|
    ensures Int(qs[i].low - Before(qs, i)) == Gap(qs, i) && (i + 1 < |qs| ==> Int(qs[i].End()) == Before(qs, i + 1))
  {
    assert i + 1 < |qs| ==> qs[i].End() < qs[i + 1].low;
    assert i > 0 ==> qs[i - 1].End() < qs[i].low;
  }

  method Gaps(list: array<int>, ghost qs: seq<Range>, ghost m: nat)
    requires Written(list[..], qs, m) && Startable(qs)
    modifies list
    ensures 2 * |qs| < list.Length && GappedTo(list[..], qs, |qs|) && (m == |qs| ==> list[2 * |qs|] == HUGE)
  {
    hide Startable, Int, Gap, Pairs, GappedTo;
    var lp, n := 0, 0;
    ghost var i, start := 0, list[..];
    NoGapYet(list[..], qs);
    while list[lp] != HUGE
      invariant i <= m && lp == 2 * i && (i < |qs| ==> n == Before(qs, i))
      invariant GappedTo(list[..], qs, if i < |qs| then i else |qs|)
      invariant forall j :: lp <= j < list.Length ==> list[j] == start[j]
      decreases m - i
    {
      if i < |qs| {
        PairAt(start, qs, i);
        GappedNext(list[..], qs, i);
        EndFits(qs, i);
      } else {
        GappedKept(list[..], qs, i, Int(list[lp] - n));
      }
      n := OneGap(list, lp, n);
      i, lp := i + 1, lp + 2;
    }
  }

  /** What the entries of range i mean; every gap but the first is positive. */
  lemma GapsArePositive(list: seq<int>, qs: seq<Range>, i: nat)
    requires Gapped(list, qs) && Closed(qs) && Separate(qs) && i < |qs|
    ensures 2 * |qs| <= |list| && 0 <= list[2 * i] < HUGE && (i > 0 ==> list[2 * i] > 0) && 0 <= list[2 * i + 1]
    ensures Before(qs, i) + list[2 * i] == qs[i].low && qs[i].low + list[2 * i + 1] == qs[i].End()
  {
    assert GapAt(list, qs, i);
  }

  lemma LowIsNatural(qs: seq<Range>, i: nat)
    requires Closed(qs) && i < |qs|
    ensures 0 <= qs[i].low
  {
  }

  lemma GapNotCovered(qs: seq<Range>, i: nat, k: int)
    requires Closed(qs) && Separate(qs) && i <= |qs| && Before(qs, i) <= k && (i < |qs| ==> k < qs[i].low)
    ensures !Covered(qs, k)
  {
    if i > 0 {
      assert forall j :: 0 <= j < i ==> qs[j].End() <= qs[i - 1].End();
    }
  }

  // ---- Sorting: the library sort, by first byte ----

  function Insert(r: Range, rs: seq<Range>): seq<Range> {
    if rs == [] || r.low <= rs[0].low then [r] + rs else [rs[0]] + Insert(r, rs[1..])
  }

  function Sort(rs: seq<Range>): seq<Range> {
    if rs == [] then [] else Insert(rs[0], Sort(rs[1..]))
  }

  lemma {:induction false} InsertKeeps(r: Range, rs: seq<Range>)
    ensures multiset(Insert(r, rs)) == multiset([r] + rs)
  {
    if rs != [] && r.low > rs[0].low {
      InsertKeeps(r, rs[1..]);
      assert rs == [rs[0]] + rs[1..];
    }
  }

  lemma {:induction false} InsertOrdered(r: Range, rs: seq<Range>)
    requires Ordered(rs)
    ensures Ordered(Insert(r, rs))
  {
    if rs != [] && r.low > rs[0].low {
      InsertOrdered(r, rs[1..]);
      InsertKeeps(r, rs[1..]);
      forall x | x in Insert(r, rs[1..])
        ensures rs[0].low <= x.low
      {
        assert x in multiset([r] + rs[1..]);
      }
      ConsOrdered(rs[0], Insert(r, rs[1..]));
    }
  }

  lemma ConsOrdered(r: Range, rs: seq<Range>)
    requires Ordered(rs) && forall x :: x in rs ==> r.low <= x.low
    ensures Ordered([r] + rs)
  {
    assert forall i :: 0 <= i < |rs| ==> rs[i] in rs;
  }

  lemma {:induction false} SortOrdered(rs: seq<Range>)
    ensures Ordered(Sort(rs)) && multiset(Sort(rs)) == multiset(rs)
  {
    if rs != [] {
      SortOrdered(rs[1..]);
      InsertOrdered(rs[0], Sort(rs[1..]));
      InsertKeeps(rs[0], Sort(rs[1..]));
      assert rs == [rs[0]] + rs[1..];
    }
  }

  /** Covering and being closed do not depend on the order. */
  lemma SameRanges(rs: seq<Range>, ps: seq<Range>)
    requires multiset(rs) == multiset(ps)
    ensures forall k :: Covered(rs, k) ==> Covered(ps, k)
    ensures Allowed(rs) ==> Allowed(ps)
    ensures Clear(rs) ==> Clear(ps)
    ensures |rs| == |ps|
  {
    assert |multiset(rs)| == |multiset(ps)|;
    forall k | Covered(rs, k)
      ensures Covered(ps, k)
    {
      var i :| 0 <= i < |rs| && rs[i].low <= k < rs[i].End();
      assert rs[i] in multiset(ps);
    }
    forall i | 0 <= i < |ps|
      ensures ps[i] in rs
    {
      assert ps[i] in multiset(rs);
    }
    SameElements(rs, ps);
  }

  lemma SameElements(rs: seq<Range>, ps: seq<Range>)
    requires multiset(rs) == multiset(ps)
    ensures Clear(rs) ==> Clear(ps)
  {
    forall x
      ensures x in rs <==> x in ps
    {
      assert x in rs <==> x in multiset(rs);
      assert x in ps <==> x in multiset(ps);
    }
    forall y | Clear(rs) && y in ps && LeastWide(ps, y)
      ensures LeastWide(rs, y)
    {
    }
  }

  // ---- A list sorted and merged ----

  method Store(rs: seq<Range>, size: nat) returns (list: array<int>)
    requires 2 * |rs| + 1 <= size
    ensures fresh(list) && Pairs(list[..], 0, rs) && list.Length == size && list[2 * |rs|] == HUGE
  {
    list := new int[size](_ => HUGE);
    for i := 0 to |rs|
      invariant forall j :: 0 <= j < i ==> list[2 * j] == rs[j].low && list[2 * j + 1] == rs[j].len
      invariant list[2 * |rs|] == HUGE
    {
      list[2 * i], list[2 * i + 1] := rs[i].low, rs[i].len;
    }
  }

  ghost function Search(p: seq<Range>, i: nat): (w: nat)
    requires i <= |p| && forall j :: 0 <= j < i ==> !Wide(p[j])
    ensures FirstWide(p, w)
    decreases |p| - i
  {
    if i == |p| || Wide(p[i]) then i else Search(p, i + 1)
  }

  /** The sorted and merged ranges of a list. */
  ghost function Normal(rs: seq<Range>): seq<Range> {
    Kept(Sort(rs), Search(Sort(rs), 0))
  }

  /** They cover what the list covers. */
  lemma Normalised(rs: seq<Range>)
    requires rs != [] && Allowed(rs) && Clear(rs)
    ensures Closed(Normal(rs)) && Separate(Normal(rs)) && Normal(rs) != []
    ensures forall k :: k < HUGE - 1 ==> (Covered(Normal(rs), k) <==> Covered(rs, k))
  {
    var p := Sort(rs);
    SortOrdered(rs);
    SameRanges(rs, p);
    SameRanges(p, rs);
    KeptRanges(p, Search(p, 0));
  }

  lemma JoinedBegins(qs: seq<Range>, r: Range, k: int)
    ensures Begins(qs, k) ==> Begins(Joined(qs, r), k)
    ensures Begins(Joined(qs, r), k) ==> Begins(qs, k) || r.low == k
  {
    var js := Joined(qs, r);
    if Begins(qs, k) {
      var i :| 0 <= i < |qs| && qs[i].low == k;
      assert js[i].low == k;
    }
    if Begins(js, k) && r.low != k {
      var i :| 0 <= i < |js| && js[i].low == k;
      assert i < |qs| && qs[i].low == k;
    }
  }

  /** Where a merged range begins one of the ranges merged begins. */
  lemma {:induction false} BeginsBefore(p: seq<Range>, i: nat, k: int)
    requires i <= |p|
    ensures Begins(MergeAll(p, i), k) ==> Begins(p, k)
  {
    if i > 0 {
      BeginsBefore(p, i - 1, k);
      JoinedBegins(MergeAll(p, i - 1), p[i - 1], k);
    }
  }

  /** A range that no earlier one reaches begins a merged range. */
  lemma {:induction false} BeginsAfter(p: seq<Range>, j: nat, i: nat)
    requires j < i <= |p| && Ordered(p) && Unreached(p, j, p[j])
    ensures Begins(MergeAll(p, i), p[j].low)
  {
    var qs := MergeAll(p, i - 1);
    JoinedBegins(qs, p[i - 1], p[j].low);
    if j < i - 1 {
      BeginsAfter(p, j, i - 1);
    } else {
      UnreachedMeets(p, j, p[j]);
      var js := Joined(qs, p[j]);
      assert js[|js| - 1].low == p[j].low;
    }
  }

  lemma NotCoveredUnreached(p: seq<Range>, j: nat)
    requires j < |p| && Ordered(p) && !Covered(p, p[j].low - 1)
    ensures Unreached(p, j, p[j])
  {
    forall t | 0 <= t < j
      ensures p[t].low <= p[j].low && (p[t].low < p[j].low ==> p[t].End() < p[j].low)
    {
      InOrder(p, t, j);
      assert !(p[t].low <= p[j].low - 1 < p[t].End());
    }
  }

  /** Behind a byte that is not covered, merging keeps where ranges begin. */
  lemma BeginsAlike(p: seq<Range>, w: nat, k: int)
    requires Ordered(p) && Allowed(p) && FirstWide(p, w) && k < HUGE - 1 && !Covered(p, k - 1)
    ensures Begins(Kept(p, w), k) <==> Begins(p, k)
  {
    var n := if w < |p| then w + 1 else w;
    BeginsBefore(p, n, k);
    if Begins(p, k) {
      var j :| 0 <= j < |p| && p[j].low == k;
      if j >= n {
        InOrder(p, w, j);
        assert !(p[w].low <= k - 1 < p[w].End());
        j := w;
      }
      NotCoveredUnreached(p, j);
      BeginsAfter(p, j, n);
    }
  }

  lemma SameBegins(rs: seq<Range>, ps: seq<Range>, k: int)
    requires multiset(rs) == multiset(ps)
    ensures Begins(rs, k) ==> Begins(ps, k)
  {
    if Begins(rs, k) {
      var i :| 0 <= i < |rs| && rs[i].low == k;
      assert rs[i] in multiset(ps);
    }
  }
}
