/** The lines of two files side by side: in the first only, in the second only, in both. */
module Comm {
  import opened Names
  import MergeJoin

  /** One line of output.  Lines are taken without their newline. */
  datatype Row = First(line: string) | Second(line: string) | Both(line: string)

  /** Which of the three columns are wanted. */
  datatype Mode = Mode(file1: bool, file2: bool, common: bool)

  /** The shorter line's bytes are compared first, then the lengths. */
  function LineCompare(x: string, y: string): int {
    var comp := MergeJoin.Memcmp(x, y, if |x| < |y| then |x| else |y|);
    if comp != 0 then comp else |x| - |y|
  }

  lemma LineCompareIsStrcmp(x: string, y: string)
    ensures LineCompare(x, y) < 0 <==> Less(x, y)
    ensures LineCompare(x, y) == 0 <==> x == y
    ensures LineCompare(x, y) > 0 <==> Less(y, x)
  {
    MergeJoin.MemcmpThenLength(x, y);
    StrcmpSign(x, y);
  }

  /** The three-way merge. */
  function Rows(a: seq<string>, b: seq<string>): seq<Row>
    decreases |a| + |b|
  {
    if a == [] && b == [] then []
    else if a == [] then [Second(b[0])] + Rows(a, b[1..])
    else if b == [] then [First(a[0])] + Rows(a[1..], b)
    else
      var comp := LineCompare(a[0], b[0]);
      if comp == 0 then [Both(a[0])] + Rows(a[1..], b[1..])
      else if comp > 0 then [Second(b[0])] + Rows(a, b[1..])
      else [First(a[0])] + Rows(a[1..], b)
  }

  // ---- Nothing is lost, added or moved ----

  /** Columns 1 and 3. */
  function InFirst(rows: seq<Row>): seq<string> {
    if rows == [] then [] else (if rows[0].Second? then [] else [rows[0].line]) + InFirst(rows[1..])
  }

  /** Columns 2 and 3. */
  function InSecond(rows: seq<Row>): seq<string> {
    if rows == [] then [] else (if rows[0].First? then [] else [rows[0].line]) + InSecond(rows[1..])
  }

  lemma {:induction false} Conservation(a: seq<string>, b: seq<string>)
    ensures InFirst(Rows(a, b)) == a && InSecond(Rows(a, b)) == b
    decreases |a| + |b|
  {
    if a == [] && b == [] {
    } else if a == [] {
      Conservation(a, b[1..]);
      ConsRow(Second(b[0]), Rows(a, b[1..]));
    } else if b == [] {
      Conservation(a[1..], b);
      ConsRow(First(a[0]), Rows(a[1..], b));
    } else {
      var comp := LineCompare(a[0], b[0]);
      if comp == 0 {
        SameLine(a[0], b[0]);
        Conservation(a[1..], b[1..]);
        ConsRow(Both(a[0]), Rows(a[1..], b[1..]));
      } else if comp > 0 {
        Conservation(a, b[1..]);
        ConsRow(Second(b[0]), Rows(a, b[1..]));
      } else {
        Conservation(a[1..], b);
        ConsRow(First(a[0]), Rows(a[1..], b));
      }
    }
  }

  lemma ConsRow(r: Row, rows: seq<Row>)
    ensures InFirst([r] + rows) == (if r.Second? then [] else [r.line]) + InFirst(rows)
    ensures InSecond([r] + rows) == (if r.First? then [] else [r.line]) + InSecond(rows)
  {
    assert ([r] + rows)[1..] == rows;
  }

  lemma SameLine(x: string, y: string)
    requires LineCompare(x, y) == 0
    ensures x == y
  {
    LineCompareIsStrcmp(x, y);
  }

  // ---- In column 3 as often as in both files ----

  function BothCount(rows: seq<Row>, l: string): nat {
    if rows == [] then 0 else (if rows[0] == Both(l) then 1 else 0) + BothCount(rows[1..], l)
  }

  lemma CountRow(r: Row, rows: seq<Row>, l: string)
    ensures BothCount([r] + rows, l) == (if r == Both(l) then 1 else 0) + BothCount(rows, l)
  {
    assert ([r] + rows)[1..] == rows;
  }

  ghost predicate Sorted(a: seq<string>) {
    forall i, j :: 0 <= i < j < |a| ==> !Less(a[j], a[i])
  }

  function Min(x: nat, y: nat): nat {
    if x < y then x else y
  }

  function Count(a: seq<string>, l: string): nat {
    if a == [] then 0 else (if a[0] == l then 1 else 0) + Count(a[1..], l)
  }

  /** A line before all of a sorted file is not in it. */
  lemma {:induction false} NotIn(l: string, b: seq<string>)
    requires Sorted(b) && (b != [] ==> Less(l, b[0]))
    ensures Count(b, l) == 0
  {
    if b != [] {
      StrcmpSign(l, b[0]);
      if |b| > 1 {
        StillBefore(l, b[0], b[1]);
      }
      NotIn(l, b[1..]);
    }
  }

  lemma StillBefore(l: string, x: string, y: string)
    requires Less(l, x) && !Less(y, x)
    ensures Less(l, y)
  {
    StrcmpSign(x, y);
    if x != y {
      LessTransitive(l, x, y);
    }
  }

  lemma {:induction false} Multiplicity(a: seq<string>, b: seq<string>, l: string)
    requires Sorted(a) && Sorted(b)
    ensures BothCount(Rows(a, b), l) == Min(Count(a, l), Count(b, l))
    decreases |a| + |b|
  {
    if a == [] && b == [] {
    } else if a == [] {
      Multiplicity(a, b[1..], l);
      CountRow(Second(b[0]), Rows(a, b[1..]), l);
    } else if b == [] {
      Multiplicity(a[1..], b, l);
      CountRow(First(a[0]), Rows(a[1..], b), l);
    } else {
      var comp := LineCompare(a[0], b[0]);
      LineCompareIsStrcmp(a[0], b[0]);
      StrcmpSign(a[0], b[0]);
      if comp == 0 {
        Multiplicity(a[1..], b[1..], l);
        CountRow(Both(a[0]), Rows(a[1..], b[1..]), l);
      } else if comp > 0 {
        Multiplicity(a, b[1..], l);
        CountRow(Second(b[0]), Rows(a, b[1..]), l);
        NotIn(b[0], a);
      } else {
        Multiplicity(a[1..], b, l);
        CountRow(First(a[0]), Rows(a[1..], b), l);
        NotIn(a[0], b);
      }
    }
  }

  // ---- What is written ----

  /** A row as written: a tab for each column to the left of its own that is on. */
  function Written(m: Mode, r: Row): string {
    match r
    case First(l) => if m.file1 then l + "\n" else ""
    case Second(l) => if m.file2 then (if m.file1 then "\t" else "") + l + "\n" else ""
    case Both(l) =>
      if m.common then (if m.file1 then "\t" else "") + (if m.file2 then "\t" else "") + l + "\n" else ""
  }

  /** As many tabs as there are columns on to the left, then the line; nothing if its own column is off. */
  lemma WrittenMeans(m: Mode, r: Row)
    ensures
      var on := if r.First? then m.file1 else if r.Second? then m.file2 else m.common;
      var left1, left2 := if m.file1 && !r.First? then 1 else 0, if m.file2 && r.Both? then 1 else 0;
      Written(m, r) == if on then seq(left1 + left2, _ => '\t') + r.line + ['\n'] else []
  {
    assert seq(2, _ => '\t') == ['\t', '\t'] && seq(1, _ => '\t') == ['\t'];
  }

  function Output(m: Mode, rows: seq<Row>): string {
    if rows == [] then "" else Written(m, rows[0]) + Output(m, rows[1..])
  }

  // ---- With all columns on the rows can be read back ----

  /** The first newline of a text, or its end. */
  function NewlineAt(t: string): (k: nat)
    ensures k <= |t|
  {
    if t == "" || t[0] == '\n' then 0 else 1 + NewlineAt(t[1..])
  }

  /** The row of a line by the tabs it begins with. */
  function RowOf(line: string): Row {
    if |line| > 1 && line[0] == '\t' && line[1] == '\t' then Both(line[2..])
    else if |line| > 0 && line[0] == '\t' then Second(line[1..])
    else First(line)
  }

  function ReadBack(t: string): seq<Row>
    decreases |t|
  {
    if t == "" then []
    else
      var k := NewlineAt(t);
      [RowOf(t[..k])] + (if k < |t| then ReadBack(t[k + 1..]) else [])
  }

  /** A line of a file has no newline inside; that it has no tab in front is what makes columns legible. */
  predicate Legible(r: Row) {
    '\n' !in r.line && (r.line != "" ==> r.line[0] != '\t')
  }

  lemma {:induction false} NewlineBehind(line: string, rest: string)
    requires '\n' !in line
    ensures NewlineAt(line + "\n" + rest) == |line|
  {
    var t := line + "\n" + rest;
    if line != "" {
      assert t[0] == line[0] && t[1..] == line[1..] + "\n" + rest;
      NewlineBehind(line[1..], rest);
    }
  }

  lemma ReadLine(line: string, rest: string)
    requires '\n' !in line
    ensures ReadBack(line + "\n" + rest) == [RowOf(line)] + ReadBack(rest)
  {
    hide RowOf;
    var t := line + "\n" + rest;
    NewlineBehind(line, rest);
    assert t[..|line|] == line && t[|line| + 1..] == rest;
  }

  function Tabs(r: Row): string {
    match r
    case First(_) => ""
    case Second(_) => "\t"
    case Both(_) => "\t\t"
  }

  lemma RowOfLine(r: Row)
    requires Legible(r)
    ensures RowOf(Tabs(r) + r.line) == r && '\n' !in Tabs(r) + r.line
  {
    var line := Tabs(r) + r.line;
    assert r.Second? ==> line[1..] == r.line;
    assert r.Both? ==> line[2..] == r.line;
  }

  lemma WrittenWithAll(r: Row, rest: string)
    ensures Written(Mode(true, true, true), r) + rest == (Tabs(r) + r.line) + "\n" + rest
  {
  }

  lemma ReadOne(r: Row, rest: string)
    requires Legible(r)
    ensures ReadBack(Written(Mode(true, true, true), r) + rest) == [r] + ReadBack(rest)
  {
    hide Written, RowOf, Tabs, ReadBack;
    RowOfLine(r);
    WrittenWithAll(r, rest);
    ReadLine(Tabs(r) + r.line, rest);
  }

  /** Each row comes back with its line and its column. */
  lemma {:induction false} RowsReadBack(rows: seq<Row>)
    requires forall i :: 0 <= i < |rows| ==> Legible(rows[i])
    ensures ReadBack(Output(Mode(true, true, true), rows)) == rows
  {
    if rows != [] {
      ReadOne(rows[0], Output(Mode(true, true, true), rows[1..]));
      RowsReadBack(rows[1..]);
    }
  }

  lemma OutputNext(m: Mode, r: Row, rows: seq<Row>, out: string)
    ensures out + Output(m, [r] + rows) == out + Written(m, r) + Output(m, rows)
  {
    assert ([r] + rows)[1..] == rows;
  }

  /** The row that the two current lines give. */
  function Current(cp1: string, cp2: string): Row {
    var comp := LineCompare(cp1, cp2);
    if comp == 0 then Both(cp1) else if comp > 0 then Second(cp2) else First(cp1)
  }

  method WriteRow(mode: Mode, out0: string, cp1: string, cp2: string, comp: int) returns (out: string)
    requires comp == LineCompare(cp1, cp2)
    ensures out == out0 + Written(mode, Current(cp1, cp2))
  {
    out := out0;
    if comp == 0 {
      if mode.common {
        if mode != Mode(false, false, true) {
          out := out + "\t";
          if mode == Mode(true, true, true) {
            out := out + "\t";
          }
        }
        out := out + cp1 + "\n";
      }
    } else if comp > 0 {
      if mode.file2 {
        if mode.file1 {
          out := out + "\t";
        }
        out := out + cp2 + "\n";
      }
    } else if mode.file1 {
      out := out + cp1 + "\n";
    }
  }

  lemma RestIsFirst(mode: Mode, a: seq<string>, out: string)
    requires a != []
    ensures out + Output(mode, Rows(a, [])) == out + Written(mode, First(a[0])) + Output(mode, Rows(a[1..], []))
  {
    OutputNext(mode, First(a[0]), Rows(a[1..], []), out);
  }

  lemma RestIsSecond(mode: Mode, b: seq<string>, out: string)
    requires b != []
    ensures out + Output(mode, Rows([], b)) == out + Written(mode, Second(b[0])) + Output(mode, Rows([], b[1..]))
  {
    OutputNext(mode, Second(b[0]), Rows([], b[1..]), out);
  }

  lemma {:induction false} NothingWanted(mode: Mode, a: seq<string>, b: seq<string>)
    requires (a == [] || b == []) && (a != [] ==> !mode.file1) && (b != [] ==> !mode.file2)
    ensures Output(mode, Rows(a, b)) == ""
    decreases |a| + |b|
  {
    if a != [] {
      NothingWanted(mode, a[1..], b);
      RestIsFirst(mode, a, "");
    } else if b != [] {
      NothingWanted(mode, a, b[1..]);
      RestIsSecond(mode, b, "");
    }
  }

  method Comm(in1: seq<string>, in2: seq<string>, mode: Mode) returns (out: string)
    ensures out == Output(mode, Rows(in1, in2))
  {
    out := "";
    var i, j := 0, 0;
    while i < |in1| && j < |in2|
      invariant 0 <= i <= |in1| && 0 <= j <= |in2|
      invariant out + Output(mode, Rows(in1[i..], in2[j..])) == Output(mode, Rows(in1, in2))
      decreases |in1| + |in2| - i - j
    {
      var comp := LineCompare(in1[i], in2[j]);
      RowsNext(mode, in1, in2, i, j, out);
      out := WriteRow(mode, out, in1[i], in2[j], comp);
      if comp == 0 {
        i, j := i + 1, j + 1;
      } else if comp > 0 {
        j := j + 1;
      } else {
        i := i + 1;
      }
    }
    if j < |in2| {
      out := Remaining(in2, j, mode.file2, mode.file1, out, mode, true);
    } else {
      out := Remaining(in1, i, mode.file1, false, out, mode, false);
    }
  }

  lemma RowsNext(mode: Mode, in1: seq<string>, in2: seq<string>, i: nat, j: nat, out: string)
    requires i < |in1| && j < |in2|
    ensures
      var comp := LineCompare(in1[i], in2[j]);
      var i', j' := if comp <= 0 then i + 1 else i, if comp >= 0 then j + 1 else j;
      out + Output(mode, Rows(in1[i..], in2[j..])) ==
      out + Written(mode, Current(in1[i], in2[j])) + Output(mode, Rows(in1[i'..], in2[j'..]))
  {
    var comp := LineCompare(in1[i], in2[j]);
    var i', j' := if comp <= 0 then i + 1 else i, if comp >= 0 then j + 1 else j;
    assert in1[i..][1..] == in1[i + 1..] && in2[j..][1..] == in2[j + 1..];
    OutputNext(mode, Current(in1[i], in2[j]), Rows(in1[i'..], in2[j'..]), out);
  }

  /** The rest of the file that is not used up. */
  function RestOf(lines: seq<string>, k: nat, second: bool): seq<Row>
    requires k <= |lines|
  {
    if second then Rows([], lines[k..]) else Rows(lines[k..], [])
  }

  /** How the next of those lines is written. */
  function RestRow(line: string, second: bool): Row {
    if second then Second(line) else First(line)
  }

  lemma RestNext(mode: Mode, lines: seq<string>, k: nat, second: bool, out: string)
    requires k < |lines|
    ensures out + Output(mode, RestOf(lines, k, second)) ==
            out + Written(mode, RestRow(lines[k], second)) + Output(mode, RestOf(lines, k + 1, second))
  {
    assert lines[k..][1..] == lines[k + 1..];
    if second {
      RestIsSecond(mode, lines[k..], out);
    } else {
      RestIsFirst(mode, lines[k..], out);
    }
  }

  lemma RestEmpty(mode: Mode, lines: seq<string>, k: nat, second: bool)
    requires k <= |lines| && (k == |lines| || !(if second then mode.file2 else mode.file1))
    ensures Output(mode, RestOf(lines, k, second)) == ""
  {
    if second {
      NothingWanted(mode, [], lines[k..]);
    } else {
      NothingWanted(mode, lines[k..], []);
    }
  }

  method Remaining(lines: seq<string>, k0: nat, wanted: bool, tab: bool, out0: string, ghost mode: Mode, ghost second: bool)
    returns (out: string)
    requires k0 <= |lines| && wanted == (if second then mode.file2 else mode.file1) && tab == (second && mode.file1)
    ensures out == out0 + Output(mode, RestOf(lines, k0, second))
  {
    if !wanted || k0 == |lines| {
      RestEmpty(mode, lines, k0, second);
      return out0;
    }
    out := WriteRest(lines, k0, tab, out0, mode, second);
  }

  method WriteRest(lines: seq<string>, k0: nat, tab: bool, out0: string, ghost mode: Mode, ghost second: bool)
    returns (out: string)
    requires k0 <= |lines| && (if second then mode.file2 else mode.file1) && tab == (second && mode.file1)
    ensures out == out0 + Output(mode, RestOf(lines, k0, second))
  {
    hide Output, RestOf;
    out := out0;
    ghost var goal := out + Output(mode, RestOf(lines, k0, second));
    var k := k0;
    while k < |lines|
      invariant k0 <= k <= |lines|
      invariant out + Output(mode, RestOf(lines, k, second)) == goal
    {
      RestNext(mode, lines, k, second, out);
      out := out + Line(lines[k], tab, mode, second);
      k := k + 1;
    }
    RestEmpty(mode, lines, k, second);
  }

  function Line(line: string, tab: bool, ghost mode: Mode, ghost second: bool): (s: string)
    requires (if second then mode.file2 else mode.file1) && tab == (second && mode.file1)
    ensures s == Written(mode, RestRow(line, second))
  {
    (if tab then "\t" else "") + line + "\n"
  }
}
