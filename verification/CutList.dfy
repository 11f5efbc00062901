/** Byte lists: from the text of a list to the bytes of a line it selects. */
module CutList {
  import opened CutRanges
  import opened CutText
  import opened Sequences

  // ---- What a list selects ----

  /** The selected ones of the first n bytes, in order. */
  function Selected(rs: seq<Range>, line: string, n: nat): string
    requires n <= |line|
  {
    if n == 0 then ""
    else Selected(rs, line, n - 1) + (if Covered(rs, n - 1) then [line[n - 1]] else "")
  }

  lemma {:induction false} SelectedNone(rs: seq<Range>, line: string, n: nat, m: nat)
    requires n <= m <= |line| && forall k :: n <= k < m ==> !Covered(rs, k)
    ensures Selected(rs, line, m) == Selected(rs, line, n)
    decreases m
  {
    if n < m {
      SelectedNone(rs, line, n, m - 1);
    }
  }

  lemma {:induction false} SelectedAll(rs: seq<Range>, line: string, n: nat, m: nat)
    requires n <= m <= |line| && forall k :: n <= k < m ==> Covered(rs, k)
    ensures Selected(rs, line, m) == Selected(rs, line, n) + line[n..m]
    decreases m
  {
    if n < m {
      SelectedAll(rs, line, n, m - 1);
      assert line[n..m] == line[n..m - 1] + [line[m - 1]];
    }
  }

  lemma {:induction false} SameSelection(rs: seq<Range>, qs: seq<Range>, line: string, n: nat)
    requires n <= |line| && forall k :: k < n ==> (Covered(rs, k) <==> Covered(qs, k))
    ensures Selected(rs, line, n) == Selected(qs, line, n)
  {
    if n > 0 {
      SameSelection(rs, qs, line, n - 1);
    }
  }

  // ---- Selecting bytes ----

  lemma SkipStretch(qs: seq<Range>, line: string, i: nat, pos: nat, c: nat)
    requires Closed(qs) && Separate(qs) && i <= |qs| && pos + c <= |line|
    requires Before(qs, i) <= pos && (i < |qs| ==> pos + c <= qs[i].low)
    ensures Selected(qs, line, pos + c) == Selected(qs, line, pos)
  {
    forall k | pos <= k < pos + c
      ensures !Covered(qs, k)
    {
      GapNotCovered(qs, i, k);
    }
    SelectedNone(qs, line, pos, pos + c);
  }

  lemma CopyStretch(qs: seq<Range>, line: string, i: nat, pos: nat, c: nat)
    requires i < |qs| && qs[i].low <= pos && pos + c <= qs[i].End() && pos + c <= |line|
    ensures Selected(qs, line, pos + c) == Selected(qs, line, pos) + line[pos..pos + c]
  {
    SelectedAll(qs, line, pos, pos + c);
  }

  /** The part of the line that the loop is in: the gap before range i, or range i itself. */
  function PartEnd(qs: seq<Range>, i: nat, skip: bool): int
    requires i < |qs|
  {
    if skip then qs[i].low else qs[i].End()
  }

  function PartStart(qs: seq<Range>, i: nat, skip: bool): int
    requires i < |qs|
  {
    if skip then Before(qs, i) else qs[i].low
  }

  lemma Stretch(qs: seq<Range>, line: string, i: nat, skip: bool, pos: nat, c: nat)
    requires Closed(qs) && Separate(qs) && i < |qs| && pos + c <= |line|
    requires PartStart(qs, i, skip) <= pos && pos + c <= PartEnd(qs, i, skip)
    ensures Selected(qs, line, pos + c) == Selected(qs, line, pos) + (if skip then "" else line[pos..pos + c])
  {
    if skip {
      SkipStretch(qs, line, i, pos, c);
    } else {
      CopyStretch(qs, line, i, pos, c);
    }
  }

  /** The bytes of one part, as far as the line goes; done if the line ends in this part. */
  method Part(ghost qs: seq<Range>, line: string, ghost i: nat, skip: bool, bp: nat, ncol: nat, out0: string)
    returns (out: string, bp': nat, done: bool)
    requires Closed(qs) && Separate(qs) && i < |qs| && bp <= |line|
    requires PartStart(qs, i, skip) <= bp && bp + ncol == PartEnd(qs, i, skip) && out0 == Selected(qs, line, bp)
    ensures bp' <= |line| && out == Selected(qs, line, bp')
    ensures if done then bp' == |line| <= PartEnd(qs, i, skip) else bp' == PartEnd(qs, i, skip)
    ensures if skip then done ==> |line| < PartEnd(qs, i, skip) else !done ==> PartEnd(qs, i, skip) < |line|
  {
    var len := |line| - bp;
    out := out0;
    var c, left := ncol, ncol;
    if c > len {
      c := len;
    } else if c == len && !skip {
      left := left + 1;
    }
    left := left - c;
    Stretch(qs, line, i, skip, bp, c);
    if !skip && c != 0 {
      out := out + line[bp..bp + c];
    }
    bp' := bp + c;
    done := left != 0;
  }

  /** The next entry of the list. */
  method NextPart(list: array<int>, ghost qs: seq<Range>, ghost i: nat, skip: bool, lp: nat)
    returns (ncol: int, ghost i': nat)
    requires Gapped(list[..], qs) && Closed(qs) && Separate(qs) && i < |qs| && lp == 2 * i + (if skip then 0 else 1)
    requires if skip then i > 0 || qs[i].low > 0 else qs[i].len < HUGE - 1
    ensures i' == if skip then i else i + 1
    ensures ncol == HUGE <==> i' == |qs|
    ensures i' < |qs| ==> 0 <= ncol && PartStart(qs, i', !skip) == PartEnd(qs, i, skip)
                          && PartStart(qs, i', !skip) + ncol == PartEnd(qs, i', !skip)
    ensures i' == |qs| ==> Before(qs, i') == PartEnd(qs, i, skip)
  {
    GapsArePositive(list[..], qs, i);
    i' := if skip then i else i + 1;
    if i' < |qs| {
      GapsArePositive(list[..], qs, i');
    }
    ncol := list[lp + 1];
  }

  /** A range reaches to the end of a line of n bytes, or begins there. */
  ghost predicate Touches(qs: seq<Range>, n: int) {
    exists i :: 0 <= i < |qs| && qs[i].low <= n <= qs[i].End()
  }

  /** Whether a newline is written after the bytes out of a line of n bytes. */
  ghost predicate Ended(qs: seq<Range>, n: int, out: string) {
    out == "" || !Touches(qs, n)
  }

  lemma NotTouched(qs: seq<Range>, i: nat, n: int)
    requires Closed(qs) && Separate(qs) && i <= |qs| && (i > 0 ==> qs[i - 1].End() < n) && (i < |qs| ==> n < qs[i].low)
    ensures !Touches(qs, n)
  {
    forall j | 0 <= j < |qs|
      ensures !(qs[j].low <= n <= qs[j].End())
    {
      if j < i - 1 {
        assert qs[j].End() < qs[i - 1].low;
      } else if j > i {
        assert qs[i].End() < qs[j].low;
      }
    }
  }

  /** One line without its delimiter, and whether the delimiter follows. */
  method CutLine(list: array<int>, ghost qs: seq<Range>, line: string) returns (out: string, delim: bool)
    requires Gapped(list[..], qs) && Closed(qs) && Separate(qs) && qs != [] && |line| < HUGE - 1
    ensures out == Selected(qs, line, |line|)
    ensures delim <==> Ended(qs, |line|, out)
  {
    hide Gapped, Closed, Separate, ClosedOne;
    out := "";
    ghost var i := 0;
    var bp, lp := 0, 0;
    GapsArePositive(list[..], qs, 0);
    var ncol := list[0];
    var skip, done := ncol != 0, false;
    if !skip {
      lp := 1;
      ncol := list[1];
    }
    while true
      invariant 0 <= bp <= |line| && i < |qs| && lp == 2 * i + (if skip then 0 else 1)
      invariant PartStart(qs, i, skip) <= bp && bp + ncol == PartEnd(qs, i, skip) && 0 <= ncol
      invariant out == Selected(qs, line, bp)
      invariant (i > 0 ==> qs[i - 1].End() < |line|) && (skip ==> i > 0 || qs[i].low > 0)
      decreases 2 * |qs| - lp
    {
      out, bp, done := Part(qs, line, i, skip, bp, ncol, out);
      if done {
        if skip { NotTouched(qs, i, |line|); }
        return out, skip || out == "";
      }
      LowIsNatural(qs, i);
      ncol, i := NextPart(list, qs, i, skip, lp);
      lp := lp + 1;
      skip := !skip;
      if ncol == HUGE {
        break;
      }
    }
    SkipStretch(qs, line, i, bp, |line| - bp);
    NotTouched(qs, i, |line|);
    delim := true;
  }

  /** The newline at the end of a line is lost: it is not selected, a range begins right behind it, and there is output. */
  ghost predicate Lost(rs: seq<Range>, body: string) {
    Selected(rs, body, |body|) != "" && !Covered(rs, |body|) && Begins(rs, |body| + 1)
  }

  lemma {:induction false} SelectedPrefix(qs: seq<Range>, body: string, line: string, n: nat)
    requires n <= |body| <= |line| && body == line[..|body|]
    ensures Selected(qs, line, n) == Selected(qs, body, n)
  {
    if n > 0 {
      SelectedPrefix(qs, body, line, n - 1);
    }
  }

  /** If the newline is covered the line's end is in that range. */
  lemma NewlineCovered(qs: seq<Range>, n: nat)
    requires Covered(qs, n)
    ensures Touches(qs, n + 1)
  {
    var i :| 0 <= i < |qs| && qs[i].low <= n < qs[i].End();
    assert qs[i].low <= n + 1 <= qs[i].End();
  }

  lemma NewlineNotCovered(qs: seq<Range>, n: nat)
    requires Closed(qs) && !Covered(qs, n)
    ensures Touches(qs, n + 1) <==> Begins(qs, n + 1)
  {
    forall i | 0 <= i < |qs|
      ensures qs[i].low <= n + 1 <= qs[i].End() <==> qs[i].low == n + 1
    {
      assert !(qs[i].low <= n < qs[i].End());
    }
  }

  /** What is written for a line that ends in a newline: its selected bytes and one newline, unless that is lost. */
  lemma NewlineOnceUnlessLost(qs: seq<Range>, body: string)
    requires Closed(qs)
    ensures
      var line := body + "\n";
      var out := Selected(qs, line, |line|);
      out + (if Ended(qs, |line|, out) then "\n" else "") ==
      Selected(qs, body, |body|) + (if Lost(qs, body) then "" else "\n")
  {
    hide Closed, Touches, Covered, Begins;
    SelectedPrefix(qs, body, body + "\n", |body|);
    if Covered(qs, |body|) {
      NewlineCovered(qs, |body|);
    } else {
      NewlineNotCovered(qs, |body|);
    }
  }

  // ---- The whole of cutinit and the byte loop ----

  /** Whether the newline is lost can be told from the list as it is given. */
  lemma LostAlike(rs: seq<Range>, body: string)
    requires rs != [] && Allowed(rs) && Clear(rs) && |body| < HUGE - 2
    ensures Lost(Normal(rs), body) <==> Lost(rs, body)
  {
    var p := Sort(rs);
    Normalised(rs);
    SameSelection(Normal(rs), rs, body, |body|);
    SortOrdered(rs);
    SameRanges(rs, p);
    SameRanges(p, rs);
    SameBegins(rs, p, |body| + 1);
    SameBegins(p, rs, |body| + 1);
    if !Covered(rs, |body|) {
      BeginsAlike(p, Search(p, 0), |body| + 1);
    }
  }

  /** The ranges fit the arithmetic, and none reaches to the first that goes past every line. */
  ghost predicate Proper(rs: seq<Range>) {
    Allowed(rs) && Clear(rs)
  }

  /** The last length of the list is negative or taken for the end mark. */
  ghost predicate Spoilt(list: seq<int>, qs: seq<Range>) {
    qs != [] && 2 * |qs| <= |list| && Unusable(Range(qs[|qs| - 1].low, list[2 * |qs| - 1]))
  }

  /**
   The text of a list made into gaps and lengths of the union of its ranges, in two ints more than
   the text has characters; ok is false if the text is not a list.  If a range reaches into the
   first one that goes past every line, the length of that one is spoilt.
   */
  method CutInit(text: string) returns (ok: bool, list: array<int>, ghost qs: seq<Range>)
    requires Parsed(text).Reading? ==> Allowed(Parsed(text).done)
    ensures ok <==> Parsed(text).Reading?
    ensures fresh(list) && list.Length == |text| + 2
    ensures ok ==> qs == Normal(Parsed(text).done) && qs != []
    ensures ok ==> 2 * |qs| <= list.Length && GappedTo(list[..], AsStored(qs), |qs|)
    ensures ok ==> if Clear(Parsed(text).done) then Gapped(list[..], qs) else Spoilt(list[..], qs)
    ensures ok && Clear(Parsed(text).done) ==>
              && Closed(qs) && Separate(qs)
              && forall k :: k < HUGE - 1 ==> (Covered(qs, k) <==> Covered(Parsed(text).done, k))
  {
    var r := Parse(text);
    if r.Failed? {
      list := new int[|text| + 2];
      return false, list, [];
    }
    ListFits(text);
    if Clear(r.done) { Normalised(r.done); }
    list, qs := Prepare(r.done, |text| + 2);
    ok := true;
  }

  method Prepare(ranges: seq<Range>, size: nat) returns (list: array<int>, ghost qs: seq<Range>)
    requires ranges != [] && 2 * |ranges| + 1 <= size && Allowed(ranges)
    ensures qs == Normal(ranges) && qs != [] && fresh(list) && list.Length == size
    ensures 2 * |qs| <= list.Length && GappedTo(list[..], AsStored(qs), |qs|)
    ensures if Clear(ranges) then Gapped(list[..], qs) else Spoilt(list[..], qs)
  {
    hide Ordered, Allowed, Clear, Written, GappedTo, Kept, Startable, AsStored, Gapped, Spoilt, FirstWide;
    var p := Sort(ranges);
    SortOrdered(ranges);
    SameRanges(ranges, p);
    SameRanges(p, ranges);
    list := Store(p, size);
    ghost var w := Search(p, 0);
    ghost var m := Merge(list, p, w);
    qs := Normal(ranges);
    KeptStarts(p, w);
    Gaps(list, AsStored(qs), m);
    PreparedRight(list[..], p, w, m);
  }

  /** The finished list is right if and only if no range reaches into the first wide one. */
  lemma PreparedRight(list: seq<int>, p: seq<Range>, w: nat, m: nat)
    requires p != [] && Ordered(p) && Allowed(p) && FirstWide(p, w)
    requires var qs := AsStored(Kept(p, w));
      2 * |qs| < |list| && GappedTo(list, qs, |qs|) && (m == |qs| ==> list[2 * |qs|] == HUGE)
    requires w == |p| || p[w].len == HUGE ==> m == |Kept(p, w)|
    ensures if Clear(p) then Gapped(list, Kept(p, w)) else Spoilt(list, Kept(p, w))
  {
    hide Ordered, Allowed, Startable, Kept, AsStored, GappedTo, Clear, Gapped, Spoilt;
    if w == |p| {
      PreparedWhole(list, p, w, m);
    } else {
      ClearExactly(p, w);
      if Clear(p) {
        PreparedClear(list, p, w, m);
      } else {
        PreparedSpoilt(list, p, w);
      }
    }
  }

  lemma PreparedWhole(list: seq<int>, p: seq<Range>, w: nat, m: nat)
    requires p != [] && Ordered(p) && Allowed(p) && FirstWide(p, w) && w == |p| && m == |Kept(p, w)|
    requires var qs := AsStored(Kept(p, w)); 2 * |qs| < |list| && GappedTo(list, qs, |qs|) && list[2 * |qs|] == HUGE
    ensures Clear(p) && Gapped(list, Kept(p, w))
  {
    hide Ordered, Allowed, GappedTo, Clear;
    LastFits(p, w, w);
    NoneIsClear(p);
  }

  lemma PreparedClear(list: seq<int>, p: seq<Range>, w: nat, m: nat)
    requires p != [] && Ordered(p) && Allowed(p) && FirstWide(p, w) && w < |p| && Clear(p)
    requires var qs := AsStored(Kept(p, w));
      2 * |qs| < |list| && GappedTo(list, qs, |qs|) && (m == |qs| ==> list[2 * |qs|] == HUGE)
    requires p[w].len == HUGE ==> m == |Kept(p, w)|
    ensures Gapped(list, Kept(p, w))
  {
    hide Ordered, GappedTo, Clear, Kept;
    KeptMerged(p, w);
    StoredAsIs(Kept(p, w));
  }

  lemma PreparedSpoilt(list: seq<int>, p: seq<Range>, w: nat)
    requires p != [] && Ordered(p) && Allowed(p) && FirstWide(p, w) && w < |p| && !Meets(MergeAll(p, w), p[w])
    requires var qs := AsStored(Kept(p, w)); 2 * |qs| < |list| && GappedTo(list, qs, |qs|)
    ensures Spoilt(list, Kept(p, w))
  {
    hide Ordered, Allowed, Meets, Joined, AsStored, Spoilt, Unusable, Closed, GappedTo;
    MergeAllKeeps(p, w, w);
    LastBefore(p, w);
    WideStored(MergeAll(p, w), p[w]) by { AllowedAt(p, w); }
    KeptStarts(p, w);
    SpoiltFrom(list, Kept(p, w));
  }

  lemma AllowedAt(p: seq<Range>, i: nat)
    requires Allowed(p) && i < |p|
    ensures AllowedOne(p[i])
  {
  }

  lemma SpoiltFrom(list: seq<int>, qs: seq<Range>)
    requires qs != [] && 2 * |qs| <= |list| && GappedTo(list, AsStored(qs), |qs|) && Unusable(AsStored(qs)[|qs| - 1])
    ensures Spoilt(list, qs)
  {
    assert GapAt(list, AsStored(qs), |qs| - 1);
  }

  lemma NoneIsClear(p: seq<Range>)
    requires forall j :: 0 <= j < |p| ==> !Wide(p[j])
    ensures Clear(p)
  {
  }

  /** A spoilt list is not one that the cutting loop can use. */
  lemma SpoiltIsWrong(list: seq<int>, qs: seq<Range>)
    requires Spoilt(list, qs) && Gapped(list, qs)
    ensures !Closed(qs)
  {
    assert GapAt(list, qs, |qs| - 1);
  }

  const OVERLAP: seq<Item> := [Span("1", "4"), Span("3", "")]

  lemma OverlapText()
    ensures Items(OVERLAP) && Text(OVERLAP, [","]) == "1-4,3-"
  {
    DigitText("1", 1);
    DigitText("4", 4);
    DigitText("3", 3);
    assert OVERLAP[1..] == [OVERLAP[1]];
  }

  lemma OverlapRanges()
    requires Items(OVERLAP)
    ensures Ranges(OVERLAP) == [Range(0, 4), Range(2, HUGE - 1)]
  {
    DigitText("1", 1);
    DigitText("4", 4);
    DigitText("3", 3);
    assert OVERLAP[1..] == [OVERLAP[1]] && [OVERLAP[1]][1..] == [];
    assert Ranges([OVERLAP[1]]) == [OVERLAP[1].Range()] + Ranges([]);
  }

  lemma OverlapIsParsed()
    ensures Parsed("1-4,3-") == Reading(0, 0, [Range(0, 4), Range(2, HUGE - 1)], false)
  {
    hide Run, Step, Text, Ranges, Items, Value;
    OverlapText();
    OverlapRanges();
    ReadText(OVERLAP, [","], []);
    assert [] + Ranges(OVERLAP) == Ranges(OVERLAP);
  }

  /** It is in order, so that the merge joins the second range to the first. */
  lemma OverlapIsNormal(x: Range, y: Range)
    requires AllowedOne(x) && AllowedOne(y) && !Wide(x) && Wide(y) && Into(x, y)
    ensures Allowed([x, y]) && !Clear([x, y]) && Normal([x, y]) == [Range(x.low, y.End() - x.low)]
  {
    var rs := [x, y];
    assert rs[0] in rs && rs[1] in rs && LeastWide(rs, y);
    assert rs[1..] == [y] && [y][1..] == [];
    assert Sort([y]) == [y];
    assert Sort(rs) == Insert(x, Sort(rs[1..])) == [x] + [y] == rs;
    assert Search(rs, 0) == Search(rs, 1) == 1;
    assert MergeAll(rs, 2) == Joined(MergeAll(rs, 1), y) && MergeAll(rs, 1) == Joined(MergeAll(rs, 0), x);
    assert MergeAll(rs, 1) == [x] && Joined([x], y) == [Range(x.low, y.End() - x.low)];
  }

  /** "1-4,3-": the second range is wide and begins in the first; its length turns negative. */
  method OverlapExample() returns (list: array<int>)
    ensures list.Length > 1 && list[0] == 0 && list[1] == -HUGE - 1
  {
    OverlapIsParsed();
    OverlapIsNormal(Range(0, 4), Range(2, HUGE - 1));
    var ok;
    ghost var qs;
    ok, list, qs := CutInit("1-4,3-");
    assert GapAt(list[..], AsStored(qs), 0);
  }

  lemma DigitText(s: string, n: nat)
    requires |s| == 1 && IsDigit(s[0]) && DigitValue(s[0]) == n
    ensures Digits(s) && Value(s) == n
  {
    assert s[..0] == "";
  }

  /** From the text of a list and a line with its newline to the text written. */
  method Cut(text: string, body: string) returns (ok: bool, out: string)
    requires |body| < HUGE - 2 && (Parsed(text).Reading? ==> Proper(Parsed(text).done))
    ensures ok <==> Parsed(text).Reading?
    ensures ok ==>
              var rs := Parsed(text).done;
              out == Selected(rs, body, |body|) + (if Lost(rs, body) then "" else "\n")
  {
    var list;
    ghost var qs;
    ok, list, qs := CutInit(text);
    out := "";
    if ok {
      ghost var rs := Parsed(text).done;
      ListFits(text);
      var delim;
      out, delim := CutLine(list, qs, body + "\n");
      NewlineOnceUnlessLost(qs, body);
      SameSelection(qs, rs, body, |body|);
      LostAlike(rs, body);
      if delim {
        out := out + "\n";
      }
    }
  }

  /** The bytes of the line that the items name, in order. */
  function Named(items: seq<Item>, line: string, n: nat): string
    requires n <= |line| && forall j :: 0 <= j < |items| ==> items[j].Written()
  {
    if n == 0 then ""
    else Named(items, line, n - 1)
         + (if exists j :: 0 <= j < |items| && items[j].Names(n) then [line[n - 1]] else "")
  }

  lemma {:induction false} SelectedIsNamed(items: seq<Item>, line: string, n: nat)
    requires n <= |line| < HUGE - 1 && Items(items)
    ensures Selected(Ranges(items), line, n) == Named(items, line, n)
  {
    if n > 0 {
      SelectedIsNamed(items, line, n - 1);
      RangesMean(items, n - 1);
    }
  }

  /** What a list selects is what its items name, whatever separates them. */
  lemma ListMeansItems(items: seq<Item>, seps: seq<string>, line: string)
    requires |items| == |seps| + 1 && Items(items) && Separators(seps) && |line| < HUGE - 1
    ensures Parsed(Text(items, seps)) == Reading(0, 0, Ranges(items), false) && Allowed(Ranges(items))
    ensures Selected(Ranges(items), line, |line|) == Named(items, line, |line|)
  {
    ReadText(items, seps, []);
    assert [] + Ranges(items) == Ranges(items);
    RangesMean(items, 0);
    SelectedIsNamed(items, line, |line|);
  }

  // ---- A newline that is lost ----

  const FAR: seq<Item> := [One("1"), Span("5", "4")]

  lemma FarText()
    ensures Items(FAR) && Text(FAR, [","]) == "1,5-4"
  {
    DigitText("1", 1);
    DigitText("4", 4);
    DigitText("5", 5);
    assert FAR[1..] == [FAR[1]];
  }

  lemma FarRanges()
    requires Items(FAR)
    ensures Ranges(FAR) == [Range(0, 1), Range(4, 0)]
  {
    DigitText("1", 1);
    DigitText("4", 4);
    DigitText("5", 5);
    assert FAR[1..] == [FAR[1]] && [FAR[1]][1..] == [];
    assert Ranges([FAR[1]]) == [FAR[1].Range()] + Ranges([]);
  }

  lemma FarIsParsed()
    ensures Parsed("1,5-4") == Reading(0, 0, [Range(0, 1), Range(4, 0)], false)
  {
    hide Run, Step, Text, Ranges, Items, Value;
    FarText();
    FarRanges();
    ReadText(FAR, [","], []);
    assert [] + Ranges(FAR) == Ranges(FAR);
  }

  lemma FarIsLost(rs: seq<Range>)
    requires rs == [Range(0, 1), Range(4, 0)]
    ensures Proper(rs) && Selected(rs, "abc", 3) == "a" && Lost(rs, "abc")
  {
    forall k: int
      ensures Covered(rs, k) <==> k == 0
    {
      assert rs[0].low <= k < rs[0].End() <==> k == 0;
    }
    assert rs[1].low == 4;
    SelectedNone(rs, "abc", 1, 3);
    SelectedAll(rs, "abc", 0, 1);
  }

  /** Byte 1 and an empty span from byte 5 on, of a line of three bytes and a newline. */
  method LostExample() returns (out: string)
    ensures out == "a"
  {
    FarIsParsed();
    FarIsLost([Range(0, 1), Range(4, 0)]);
    var ok;
    ok, out := Cut("1,5-4", "abc");
  }
}
