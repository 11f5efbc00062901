/** The text of a list of byte numbers and spans: how it is read and what it means. */
module CutText {
  import opened CutRanges
  import opened Sequences

  // ---- The text of a list ----

  function IsBlank(c: char): bool {
    c == ' ' || c == '\t'
  }

  function IsDigit(c: char): bool {
    '0' <= c <= '9'
  }

  function DigitValue(c: char): nat
    requires IsDigit(c)
  {
    c as int - '0' as int
  }

  /** The range an element stands for, n being its last number and range the number before a dash. */
  function Element(n: int, range: int): Range {
    if range != 0 then Range(range - 1, if n != 0 then n - (range - 1) else HUGE - 1)
    else Range(n - 1, 1)
  }

  /** The state of reading a list; blanks is set while blanks after an element are passed over. */
  datatype State = Reading(n: int, range: int, done: seq<Range>, blanks: bool) | Failed

  function End(st: State): State {
    if st.Failed? || Element(st.n, st.range).len < 0 then Failed
    else Reading(0, 0, st.done + [Element(st.n, st.range)], false)
  }

  function Step(st: State, c: char): State {
    if st.Failed? then Failed
    else if IsBlank(c) then (if st.blanks then st else if End(st).Failed? then Failed else End(st).(blanks := true))
    else if c == ',' then End(st)
    else if c == '-' then
      if st.range != 0 then Failed else Reading(0, if st.n != 0 then st.n else 1, st.done, false)
    else if IsDigit(c) then Reading(10 * st.n + DigitValue(c), st.range, st.done, false)
    else Failed
  }

  const START := Reading(0, 0, [], false)

  /** What the text of a list gives. */
  function Parsed(text: string): State {
    End(Run(Step, START, text))
  }

  lemma {:induction false} FailedStays(text: string, i: nat)
    requires i <= |text| && Run(Step, START, text[..i]) == Failed
    ensures Parsed(text) == Failed
    decreases |text| - i
  {
    if i < |text| {
      RunNext(Step, START, text, i);
      FailedStays(text, i + 1);
    } else {
      assert text[..i] == text;
    }
  }

  method Parse(s: string) returns (r: State)
    ensures r == Parsed(s)
  {
    var i, n, range := 0, 0, 0;
    var list: seq<Range> := [];
    ghost var blanks := false;
    while true
      invariant 0 <= i <= |s| && (blanks ==> i == |s| || !IsBlank(s[i]))
      invariant Run(Step, START, s[..i]) == Reading(n, range, list, blanks)
      decreases |s| - i
    {
      if i == |s| {
        assert s[..i] == s;
        return End(Reading(n, range, list, false));
      }
      var c := s[i];
      RunNext(Step, START, s, i);
      if c == ',' || IsBlank(c) {
        var e := Element(n, range);
        if e.len < 0 {
          FailedStays(s, i + 1);
          return Failed;
        }
        list := list + [e];
        n, range, blanks := 0, 0, IsBlank(c);
        i := i + 1;
        if IsBlank(c) {
          i := SkipBlanks(s, i, list);
        }
      } else if c == '-' {
        if range != 0 {
          FailedStays(s, i + 1);
          return Failed;
        }
        range := if n != 0 then n else 1;
        n, i, blanks := 0, i + 1, false;
      } else if IsDigit(c) {
        n, i, blanks := 10 * n + DigitValue(c), i + 1, false;
      } else {
        FailedStays(s, i + 1);
        return Failed;
      }
    }
  }

  method SkipBlanks(s: string, i: nat, ghost list: seq<Range>) returns (j: nat)
    requires i <= |s| && Run(Step, START, s[..i]) == Reading(0, 0, list, true)
    ensures i <= j <= |s| && (j == |s| || !IsBlank(s[j])) && Run(Step, START, s[..j]) == Reading(0, 0, list, true)
  {
    j := i;
    while j < |s| && IsBlank(s[j])
      invariant i <= j <= |s| && Run(Step, START, s[..j]) == Reading(0, 0, list, true)
    {
      RunNext(Step, START, s, j);
      j := j + 1;
    }
  }

  // ---- What a list means ----

  predicate Digits(s: string) {
    forall i :: 0 <= i < |s| ==> '0' <= s[i] <= '9'
  }

  function Value(s: string): nat
    requires Digits(s)
  {
    if s == "" then 0 else 10 * Value(s[..|s| - 1]) + (s[|s| - 1] as int - '0' as int)
  }

  /** A number as it is usually written. */
  function Decimal(n: nat): string {
    (if n < 10 then "" else Decimal(n / 10)) + [('0' as int + n % 10) as char]
  }

  lemma {:induction false} ValueOfDecimal(n: nat)
    ensures Digits(Decimal(n)) && Value(Decimal(n)) == n
  {
    var most := if n < 10 then "" else Decimal(n / 10);
    if n >= 10 { ValueOfDecimal(n / 10); }
    ValueNext(most, n % 10);
  }

  lemma ValueNext(s: string, d: nat)
    requires Digits(s) && d < 10
    ensures var s' := s + [('0' as int + d) as char]; Digits(s') && Value(s') == 10 * Value(s) + d
  {
    var s' := s + [('0' as int + d) as char];
    assert s'[..|s|] == s;
  }

  /** A byte number, or a dash with a number, or nothing, on either side; bytes are counted from one. */
  datatype Item = One(n: string) | Span(low: string, high: string)
  {
    predicate Written() {
      match this
      case One(n) => n != "" && Digits(n)
      case Span(low, high) => Digits(low) && Digits(high)
    }

    /** Where a span begins if its first number is left out or zero. */
    function Low(): nat
      requires Span? && Written()
    {
      if Value(low) != 0 then Value(low) else 1
    }

    /** Numbers count from one and fit an int, and spans do not run backwards. */
    predicate Valid()
      requires Written()
    {
      match this
      case One(n) => 0 < Value(n) <= HUGE
      case Span(low, high) =>
        Low() <= HUGE && (Value(high) == 0 || (Low() <= Value(high) + 1 && Value(high) <= HUGE))
    }

    function Text(): string {
      match this
      case One(n) => n
      case Span(low, high) => low + "-" + high
    }

    function Range(): Range
      requires Written()
    {
      match this
      case One(n) => Element(Value(n), 0)
      case Span(low, high) => Element(Value(high), Low())
    }

    /** Byte number b is in it. */
    predicate Names(b: int)
      requires Written()
    {
      match this
      case One(n) => b == Value(n)
      case Span(low, high) => Low() <= b && (Value(high) == 0 || b <= Value(high))
    }
  }

  predicate Items(items: seq<Item>) {
    items != [] && forall j :: 0 <= j < |items| ==> items[j].Written() && items[j].Valid()
  }

  /** A comma, or any number of blanks. */
  predicate Separator(s: string) {
    s == "," || (s != "" && forall i :: 0 <= i < |s| ==> s[i] == ' ' || s[i] == '\t')
  }

  predicate Separators(seps: seq<string>) {
    forall j :: 0 <= j < |seps| ==> Separator(seps[j])
  }

  function Text(items: seq<Item>, seps: seq<string>): string
    requires |items| == |seps| + 1
  {
    if seps == [] then items[0].Text() else items[0].Text() + seps[0] + Text(items[1..], seps[1..])
  }

  function Ranges(items: seq<Item>): seq<Range>
    requires forall j :: 0 <= j < |items| ==> items[j].Written()
  {
    if items == [] then [] else [items[0].Range()] + Ranges(items[1..])
  }

  /** Digits are gathered into a number. */
  lemma {:induction false} ReadNumber(d: string, range: int, done: seq<Range>)
    requires Digits(d)
    ensures Run(Step, Reading(0, range, done, false), d) == Reading(Value(d), range, done, false)
  {
    if d != "" {
      ReadNumber(d[..|d| - 1], range, done);
      assert IsDigit(d[|d| - 1]);
    }
  }

  lemma RunOne<S, T>(f: (S, T) -> S, st: S, c: T)
    ensures Run(f, st, [c]) == f(st, c)
  {
    assert [c][..0] == [];
  }

  /** An item leaves its numbers to be ended by what follows. */
  lemma ReadItem(item: Item, done: seq<Range>)
    requires item.Written()
    ensures var st := Run(Step, Reading(0, 0, done, false), item.Text());
      st.Reading? && st.done == done && Element(st.n, st.range) == item.Range()
  {
    var st := Reading(0, 0, done, false);
    match item
    case One(n) =>
      ReadNumber(n, 0, done);
    case Span(low, high) =>
      ReadNumber(low, 0, done);
      RunOne(Step, Reading(Value(low), 0, done, false), '-');
      ReadNumber(high, item.Low(), done);
      RunAppend(Step, st, low, "-");
      RunAppend(Step, st, low + "-", high);
  }

  /** A span that ends two or more before it begins is refused; no other is. */
  lemma BadSpan(low: string, high: string)
    requires Digits(low) && Digits(high)
    ensures Parsed(Span(low, high).Text()) == Failed <==> 0 < Value(high) && Value(high) + 1 < Span(low, high).Low()
  {
    ReadItem(Span(low, high), []);
  }

  /** A text with any other character is refused. */
  lemma BadCharacter(text: string, i: nat)
    requires i < |text| && text[i] !in "0123456789 \t,-"
    ensures Parsed(text) == Failed
  {
    KnownCharacters(text[i]);
    RunNext(Step, START, text, i);
    FailedStays(text, i + 1);
  }

  lemma KnownCharacters(c: char)
    ensures c in "0123456789 \t,-" <==> IsDigit(c) || IsBlank(c) || c == ',' || c == '-'
  {
    var all := "0123456789 \t,-";
    assert all[10] == ' ' && all[11] == '\t' && all[12] == ',' && all[13] == '-';
    if IsDigit(c) { assert all[c as int - '0' as int] == c; }
  }

  /** A text with a second dash in an element is refused. */
  lemma SecondDash(before: string, d: string, after: string)
    requires Digits(d)
    ensures Parsed(before + "-" + d + "-" + after) == Failed
  {
    var st := Run(Step, START, before);
    RunAppend(Step, START, before, "-");
    RunOne(Step, st, '-');
    RunAppend(Step, START, before + "-", d);
    RunAppend(Step, START, before + "-" + d, "-");
    var st1 := Run(Step, START, before + "-");
    if st1.Reading? {
      ReadNumber(d, st1.range, st1.done);
      RunOne(Step, Reading(Value(d), st1.range, st1.done, false), '-');
    } else {
      RunFailed(d);
      RunFailed("-");
    }
    var text, begun := before + "-" + d + "-" + after, before + "-" + d + "-";
    assert text[..|begun|] == begun;
    FailedStays(text, |begun|);
  }

  lemma {:induction false} RunFailed(text: string)
    ensures Run(Step, Failed, text) == Failed
  {
    if text != "" { RunFailed(text[..|text| - 1]); }
  }

  /** Blanks passed over before an item make no difference to it. */
  lemma {:induction false} BlanksBefore(done: seq<Range>, t: string)
    requires t != "" && !IsBlank(t[0]) && t[0] != ','
    ensures Run(Step, Reading(0, 0, done, true), t) == Run(Step, Reading(0, 0, done, false), t)
  {
    if |t| > 1 {
      BlanksBefore(done, t[..|t| - 1]);
    } else {
      assert t == [t[0]];
      RunOne(Step, Reading(0, 0, done, true), t[0]);
      RunOne(Step, Reading(0, 0, done, false), t[0]);
    }
  }

  /** A separator ends an item. */
  lemma {:induction false} ReadSeparator(st: State, sep: string)
    requires Separator(sep) && st.Reading? && !st.blanks && End(st).Reading?
    ensures Run(Step, st, sep) == End(st).(blanks := sep != ",")
  {
    if sep == "," {
      RunOne(Step, st, ',');
    } else if |sep| == 1 {
      assert sep == [sep[0]] && IsBlank(sep[0]);
      RunOne(Step, st, sep[0]);
    } else {
      assert IsBlank(sep[0]) && IsBlank(sep[|sep| - 1]);
      assert sep[..|sep| - 1][0] == sep[0];
      ReadSeparator(st, sep[..|sep| - 1]);
    }
  }

  lemma {:induction false} NoBlanksPending(st: State, t: string)
    requires t != "" && !IsBlank(t[|t| - 1])
    ensures var st' := Run(Step, st, t); st'.Reading? ==> !st'.blanks
  {
  }

  lemma ItemEnds(item: Item)
    requires item.Written()
    ensures var t := item.Text();
      t != "" && !IsBlank(t[0]) && t[0] != ',' && !IsBlank(t[|t| - 1])
  {
    if item.Span? && item.low != "" {
      assert item.Text()[0] == item.low[0];
    }
    var t := item.Text();
    if item.Span? && item.high != "" {
      assert t[|t| - 1] == item.high[|item.high| - 1];
    }
  }

  lemma TextBegins(items: seq<Item>, seps: seq<string>)
    requires |items| == |seps| + 1 && Items(items)
    ensures var t := Text(items, seps); t != "" && !IsBlank(t[0]) && t[0] != ','
  {
    ItemEnds(items[0]);
    assert Text(items, seps)[0] == items[0].Text()[0];
  }

  lemma ValidEnds(item: Item, st: State)
    requires item.Written() && item.Valid() && st.Reading? && Element(st.n, st.range) == item.Range()
    ensures End(st) == Reading(0, 0, st.done + [item.Range()], false)
  {
  }

  /** The text of a list is read back as its ranges. */
  lemma {:induction false} ReadText(items: seq<Item>, seps: seq<string>, done: seq<Range>)
    requires |items| == |seps| + 1 && Items(items) && Separators(seps)
    ensures End(Run(Step, Reading(0, 0, done, false), Text(items, seps))) == Reading(0, 0, done + Ranges(items), false)
    decreases |items|
  {
    var st, t := Reading(0, 0, done, false), items[0].Text();
    var st1 := Run(Step, st, t);
    ReadItem(items[0], done);
    ValidEnds(items[0], st1);
    RangesNext(items, done);
    if seps == [] {
      assert Ranges(items[1..]) == [];
    } else {
      var sep, rest := seps[0], Text(items[1..], seps[1..]);
      ItemEnds(items[0]);
      NoBlanksPending(st, t);
      RunAppend(Step, st, t, sep);
      ReadSeparator(st1, sep);
      RunAppend(Step, st, t + sep, rest);
      TextBegins(items[1..], seps[1..]);
      BlanksBefore(done + [items[0].Range()], rest);
      ReadText(items[1..], seps[1..], done + [items[0].Range()]);
    }
  }

  lemma RangesNext(items: seq<Item>, done: seq<Range>)
    requires Items(items)
    ensures done + Ranges(items) == done + [items[0].Range()] + Ranges(items[1..])
  {
  }

  /** Byte index k is covered if and only if some item names byte k + 1. */
  lemma {:induction false} RangesMean(items: seq<Item>, k: int)
    requires k < HUGE - 1 && forall j :: 0 <= j < |items| ==> items[j].Written() && items[j].Valid()
    ensures |Ranges(items)| == |items| && Allowed(Ranges(items))
    ensures Covered(Ranges(items), k) <==> exists j :: 0 <= j < |items| && items[j].Names(k + 1)
  {
    if items != [] {
      RangesMean(items[1..], k);
      FirstRange(items[0].Range(), Ranges(items[1..]), k);
      FirstName(items, k + 1);
    }
  }

  lemma FirstRange(r: Range, rs: seq<Range>, k: int)
    ensures Covered([r] + rs, k) <==> (r.low <= k < r.End() || Covered(rs, k))
  {
    if Covered(rs, k) {
      var i :| 0 <= i < |rs| && rs[i].low <= k < rs[i].End();
      assert ([r] + rs)[i + 1] == rs[i];
    }
    assert ([r] + rs)[0] == r;
  }

  lemma FirstName(items: seq<Item>, b: int)
    requires items != [] && forall j :: 0 <= j < |items| ==> items[j].Written()
    ensures (exists j :: 0 <= j < |items| && items[j].Names(b)) <==>
            (items[0].Names(b) || exists j :: 0 <= j < |items[1..]| && items[1..][j].Names(b))
  {
    if exists j :: 0 < j < |items| && items[j].Names(b) {
      var j :| 0 < j < |items| && items[j].Names(b);
      assert items[1..][j - 1] == items[j];
    }
  }

  // ---- The memory for a list ----

  lemma AllowedPrefix(rs: seq<Range>, r: Range)
    ensures Allowed(rs + [r]) ==> Allowed(rs) && 0 <= r.low
  {
    if Allowed(rs + [r]) {
      assert (rs + [r])[|rs|] == r;
      assert forall i :: 0 <= i < |rs| ==> (rs + [r])[i] == rs[i];
    }
  }

  predicate Taken(st: State, i: nat)
    requires st.Reading?
  {
    2 * |st.done| + (if st.n != 0 || st.range != 0 then 1 else 0) <= i && 0 <= st.n && 0 <= st.range
  }

  lemma RangesTakeCharacter(st: State, c: char, i: nat)
    requires st.Reading? && Allowed(st.done) ==> Taken(st, i)
    ensures var st' := Step(st, c); st'.Reading? && Allowed(st'.done) ==> Taken(st', i + 1)
  {
    if st.Reading? {
      AllowedPrefix(st.done, Element(st.n, st.range));
    }
  }

  /** Every range takes a digit or a dash and the character that ends it. */
  lemma {:induction false} RangesTakeText(text: string, i: nat)
    requires i <= |text|
    ensures var st := Run(Step, START, text[..i]);
      st.Reading? && Allowed(st.done) ==> Taken(st, i)
  {
    if i > 0 {
      RangesTakeText(text, i - 1);
      RunNext(Step, START, text, i - 1);
      RangesTakeCharacter(Run(Step, START, text[..i - 1]), text[i - 1], i - 1);
    }
  }

  /** One int for every character and two more hold the ranges and the mark at their end. */
  lemma ListFits(text: string)
    ensures var st := Parsed(text); st.Reading? && Allowed(st.done) ==> st.done != [] && 2 * |st.done| + 1 <= |text| + 2
  {
    RangesTakeText(text, |text|);
    assert text[..|text|] == text;
    var st := Run(Step, START, text);
    if st.Reading? {
      AllowedPrefix(st.done, Element(st.n, st.range));
    }
  }
}
