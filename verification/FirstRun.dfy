/** What a first run does, from the text of the Mamfile and the time stamps of the files. */
module FirstRun {
  import opened Options
  import opened Rebuild
  import opened RebuildProofs

  // ---- From the text ----

  /** The prerequisites a block names that are made by the time it names them. */
  function Needs(strict: nat, cmds: seq<Command>, s: Seen): set<string> {
    if cmds == [] then {}
    else NeedsOne(strict, cmds[0], s) + Needs(strict, cmds[1..], ReadsOne(strict, cmds[0], s))
  }

  function NeedsOne(strict: nat, cmd: Command, s: Seen): set<string> {
    if cmd.Exec? || cmd.target !in ReadsOne(strict, cmd, s).made then {} else {cmd.target}
  }

  /** The targets that have an action. */
  function Acting(cmds: seq<Command>): set<string> {
    if cmds == [] then {} else ActingOne(cmds[0]) + Acting(cmds[1..])
  }

  function ActingOne(cmd: Command): set<string> {
    if cmd.Make? then Acting(cmd.body) + (if Exec in cmd.body then {cmd.target} else {}) else {}
  }

  /** The clock when k actions have run. */
  function ClockAfter(c: Config, clock: nat, k: nat): nat {
    if k == 0 then clock else ClockAfter(c, clock, k - 1) + c.tick(k - 1)
  }

  function FileTime(files: map<string, nat>, name: string): nat {
    if name in files then files[name] else 0
  }

  // ---- What the run leaves ----

  /** p has a rule which is not ignored, and that rule's time stamp is t. */
  ghost predicate Counts(st: State, p: string, t: nat) {
    p in st.rules && !st.rules[p].attributes.ignore && st.rules[p].time == t
  }

  /** t is the latest of own and the time stamps of those of the names that count. */
  ghost predicate Latest(t: nat, own: nat, names: set<string>, st: State) {
    && own <= t
    && (forall p, u: nat :: p in names && Counts(st, p, u) ==> u <= t)
    && (t == own || exists p :: p in names && Counts(st, p, t))
  }

  /** files and clock are those of the start, st the end of the run. */
  datatype Whole = Whole(c: Config, files: map<string, nat>, clock: nat, st: State)

  /** A source file has the time stamp of its file, and nothing runs for it. */
  ghost predicate SourceRight(w: Whole, name: string, attrs: Attributes) {
    && name in w.st.rules && name !in w.st.ran
    && w.st.rules[name].attributes.virtual == attrs.virtual && w.st.rules[name].attributes.ignore == attrs.ignore
    && w.st.rules[name].time == (if attrs.virtual then 0 else FileTime(w.files, name))
  }

  /** What becomes of a target whose block has the given needs. */
  ghost predicate TargetRight(w: Whole, name: string, attrs: Attributes, action: bool, needs: set<string>) {
    && name in w.st.rules
    && w.st.rules[name].attributes.virtual == attrs.virtual && w.st.rules[name].attributes.ignore == attrs.ignore
    && (name in w.st.ran <==> action && (attrs.virtual || Due(w, name, needs)))
    && (action && !attrs.virtual ==>
          name in w.st.files && forall p, u: nat :: p in needs && Counts(w.st, p, u) ==> u <= w.st.files[name])
    && (!attrs.ignore ==> TimeRight(w, name, attrs, needs))
  }

  /** The file is missing, older than something needed, or it and everything needed have the time 0. */
  ghost predicate Due(w: Whole, name: string, needs: set<string>) {
    || name !in w.files
    || (exists p, u: nat :: p in needs && Counts(w.st, p, u) && w.files[name] < u)
    || (w.files[name] == 0 && forall p, u: nat :: p in needs && Counts(w.st, p, u) ==> u == 0)
  }

  /**
   A rule ends with the latest time stamp of its file and what it needs.  A virtual rule has a time stamp
   of its own only if its action ran: that of the file by its name, or else the time of the action.
   */
  ghost predicate TimeRight(w: Whole, name: string, attrs: Attributes, needs: set<string>) {
    if name !in w.st.rules then false
    else if attrs.virtual && name in w.st.ran && name !in w.files then
      forall k :: 0 <= k < |w.st.ran| && w.st.ran[k] == name ==>
                    Latest(w.st.rules[name].time, ClockAfter(w.c, w.clock, k + 1), needs, w.st)
    else
      var own := if attrs.virtual && name !in w.st.ran then 0 else FileTime(w.st.files, name);
      Latest(w.st.rules[name].time, own, needs, w.st)
  }

  /** Every source and every target of the text, at any depth. */
  ghost predicate Right(w: Whole, cmds: seq<Command>, s: Seen)
    decreases cmds, 0
  {
    cmds != [] ==> RightOne(w, cmds[0], s) && Right(w, cmds[1..], ReadsOne(w.c.strict, cmds[0], s))
  }

  ghost predicate RightOne(w: Whole, cmd: Command, s: Seen)
    decreases cmd, 0
  {
    match cmd
    case Exec => true
    case Make(name, attrs, body) =>
      && Right(w, body, MakeSeen(name, s))
      && TargetRight(w, name, attrs, Exec in body, Needs(w.c.strict, body, MakeSeen(name, s)))
    case Makp(name, attrs) => name !in s.known ==> SourceRight(w, name, attrs)
    case Prev(name, operand) =>
      name !in s.known && w.c.strict > 0 ==> SourceRight(w, name, if operand.Some? then operand.value else NOATTRIBUTES)
  }

  /** The actions ran for different rules, each at its time, and no other file has changed. */
  ghost predicate RanRight(w: Whole) {
    && w.st.clock == ClockAfter(w.c, w.clock, |w.st.ran|)
    && (forall i, j :: 0 <= i < j < |w.st.ran| ==> w.st.ran[i] != w.st.ran[j])
    && (forall n :: n !in w.st.ran ==> SameFile(w.files, w.st.files, n))
    && (forall k :: 0 <= k < |w.st.ran| ==> StampRight(w, w.st.ran[k], k))
  }

  ghost predicate StampRight(w: Whole, name: string, k: nat) {
    && name in w.st.rules
    && (w.st.rules[name].attributes.virtual ==> SameFile(w.files, w.st.files, name))
    && (!w.st.rules[name].attributes.virtual ==>
          name in w.st.files && w.st.files[name] == ClockAfter(w.c, w.clock, k + 1))
  }

  // ---- The same, command by command ----

  lemma ReadsNext(strict: nat, cmds: seq<Command>, s: Seen, i: nat)
    requires i < |cmds|
    ensures Reads(strict, cmds[..i + 1], s) == Reads(strict, cmds[1..][..i], ReadsOne(strict, cmds[0], s))
  {
    assert cmds[..i + 1][1..] == cmds[1..][..i];
  }

  /** Every command of a block is right where it is read. */
  lemma {:induction false} EveryCommandRight(w: Whole, cmds: seq<Command>, s: Seen, i: nat)
    requires Right(w, cmds, s) && i < |cmds|
    ensures RightOne(w, cmds[i], Reads(w.c.strict, cmds[..i], s))
  {
    if i > 0 {
      EveryCommandRight(w, cmds[1..], ReadsOne(w.c.strict, cmds[0], s), i - 1);
      ReadsNext(w.c.strict, cmds, s, i - 1);
    }
  }

  /** A block needs what one of its commands names, if it is made when that command has been read. */
  lemma {:induction false} NeedsMean(strict: nat, cmds: seq<Command>, s: Seen, p: string)
    ensures p in Needs(strict, cmds, s) <==>
            exists i :: 0 <= i < |cmds| && NamedAt(strict, cmds, s, p, i)
  {
    if cmds != [] {
      var rest, s' := cmds[1..], ReadsOne(strict, cmds[0], s);
      NeedsMean(strict, rest, s', p);
      forall i | 0 < i < |cmds|
        ensures NamedAt(strict, cmds, s, p, i) <==> NamedAt(strict, rest, s', p, i - 1)
      {
        ReadsNext(strict, cmds, s, i);
      }
      ReadsNext(strict, cmds, s, 0);
      assert p in NeedsOne(strict, cmds[0], s) <==> NamedAt(strict, cmds, s, p, 0);
      if i :| 0 <= i < |rest| && NamedAt(strict, rest, s', p, i) {
        assert NamedAt(strict, cmds, s, p, i + 1);
      }
    }
  }

  predicate NamedAt(strict: nat, cmds: seq<Command>, s: Seen, p: string, i: nat)
    requires i < |cmds|
  {
    !cmds[i].Exec? && cmds[i].target == p && p in Reads(strict, cmds[..i + 1], s).made
  }

  // ---- The actions that run ----

  ghost predicate Begun(w: Whole) {
    RanRight(w) && forall n :: n in w.st.ran ==> n in w.st.rules && w.st.rules[n].made
  }

  /** What ran in between are rules untouched before. */
  ghost predicate RunsNew(st: State, st': State) {
    forall n :: n in st'.ran && n !in st.ran ==> n !in st.rules || !Touched(st.rules[n])
  }

  lemma RunsNewTransitive(a: State, b: State, c: State, r: string)
    requires Kept(a, b, r) && RunsNew(a, b) && RunsNew(b, c)
    ensures RunsNew(a, c)
  {
    forall n | n in c.ran && n !in a.ran
      ensures n !in a.rules || !Touched(a.rules[n])
    {
      assert n in a.rules && Touched(a.rules[n]) ==> Touched(b.rules[n]);
    }
  }

  /** Nothing ran and no file changed. */
  lemma StillBegun(w: Whole, st': State)
    requires Begun(w) && st'.ran == w.st.ran && st'.files == w.st.files && st'.clock == w.st.clock
    requires forall n :: n in w.st.rules && w.st.rules[n].made ==> n in st'.rules && st'.rules[n] == w.st.rules[n]
    ensures Begun(w.(st := st')) && RunsNew(w.st, st')
  {
    forall k | 0 <= k < |st'.ran|
      ensures StampRight(w.(st := st'), st'.ran[k], k)
    {
      assert StampRight(w, st'.ran[k], k) && st'.ran[k] in w.st.ran;
    }
  }

  lemma {:induction false} CommandsRun(w: Whole, r: string, cmds: seq<Command>, b: Block)
    requires InBlock(w.st, r, b) && Begun(w)
    requires Fresh(w.c, cmds, w.st) && Commands(w.c, r, cmds, w.st, b).Some?
    ensures var st' := Commands(w.c, r, cmds, w.st, b).value.0;
      && Begun(w.(st := st')) && RunsNew(w.st, st')
      && forall n :: n in st'.ran ==> n in w.st.ran || n in Acting(cmds)
    decreases cmds, 0
  {
    if cmds != [] {
      var (st1, b1) := Step(w.c, r, cmds[0], w.st, b).value;
      FreshSplit(w.c, r, cmds, w.st, b);
      StepKeeps(w.c, r, cmds[0], w.st, b);
      StepRuns(w, r, cmds[0], b);
      CommandsRun(w.(st := st1), r, cmds[1..], b1);
      RunsNewTransitive(w.st, st1, Commands(w.c, r, cmds, w.st, b).value.0, r);
    }
  }

  lemma {:induction false} StepRuns(w: Whole, r: string, cmd: Command, b: Block)
    requires InBlock(w.st, r, b) && Begun(w)
    requires FreshOne(w.c, cmd, w.st) && Step(w.c, r, cmd, w.st, b).Some?
    ensures var st' := Step(w.c, r, cmd, w.st, b).value.0;
      && Begun(w.(st := st')) && RunsNew(w.st, st')
      && forall n :: n in st'.ran ==> n in w.st.ran || n in ActingOne(cmd)
    decreases cmd, 0
  {
    hide RanRight, MakeRule;
    var st' := Step(w.c, r, cmd, w.st, b).value.0;
    if cmd.Make? {
      StepOfMake(w.c, r, cmd.target, cmd.attributes, cmd.body, w.st, b);
      MakeRuns(w, cmd.target, cmd.attributes, cmd.body);
    } else {
      StillBegun(w, st');
    }
  }

  lemma {:induction false} MakeRuns(w: Whole, name: string, attrs: Attributes, body: seq<Command>)
    requires Sane(w.st) && Begun(w) && !Lookup(w.c, w.st, name).making
    requires FreshOne(w.c, Make(name, attrs, body), w.st)
    requires MakeRule(w.c, name, body, StartMake(w.c, w.st, name, attrs)).Some?
    ensures var st' := MakeRule(w.c, name, body, StartMake(w.c, w.st, name, attrs)).value;
      && Begun(w.(st := st')) && RunsNew(w.st, st')
      && forall n :: n in st'.ran ==> n in w.st.ran || n in ActingOne(Make(name, attrs, body))
    decreases body, 1
  {
    hide RanRight, Sane, Fresh, FreshOne;
    var (a, x) := Begin(w.c, name, attrs, w.st);
    var (e, y) := Commands(w.c, name, body, a, x).value;
    FreshBody(w.c, name, attrs, body, w.st);
    BeginKeeps(w.c, name, attrs, w.st);
    StillBegun(w, a);
    CommandsRun(w.(st := a), name, body, x);
    CommandsKeep(w.c, name, body, a, x);
    DoneRuns(w.(st := e), name, y);
    if Exec !in body { NoExecNoAction(w.c, name, body, a, x); }
  }

  lemma DoneRuns(w: Whole, name: string, y: Block)
    requires InBlock(w.st, name, y) && Begun(w) && Done(w.c, name, w.st, y).Some?
    ensures var t := Done(w.c, name, w.st, y).value;
      Begun(w.(st := t)) && (t.ran == w.st.ran || (y.action && t.ran == w.st.ran + [name]))
  {
    var t := Done(w.c, name, w.st, y).value;
    assert name !in w.st.ran;
    forall k | 0 <= k < |t.ran|
      ensures StampRight(w.(st := t), t.ran[k], k)
    {
      if k < |w.st.ran| {
        assert t.ran[k] == w.st.ran[k] && w.st.ran[k] in w.st.ran;
        assert StampRight(w, w.st.ran[k], k);
      }
    }
  }

  // ---- What is made stays so till the end ----

  /** The run w goes on from st, and what is made there stays as it is. */
  ghost predicate Ahead(st: State, w: Whole) {
    && RanRight(w) && st.ran <= w.st.ran
    && forall n :: n in st.rules && st.rules[n].made ==> Final(st, w, n)
  }

  ghost predicate Final(st: State, w: Whole, n: string)
    requires n in st.rules
  {
    && n in w.st.rules && w.st.rules[n] == st.rules[n]
    && SameFile(st.files, w.st.files, n) && (n in w.st.ran ==> n in st.ran)
  }

  lemma AheadBefore(a: State, b: State, r: string, w: Whole)
    requires Kept(a, b, r) && RunsNew(a, b) && Ahead(b, w) && r in a.rules && !a.rules[r].made
    ensures Ahead(a, w)
  {
    forall n | n in a.rules && a.rules[n].made
      ensures Final(a, w, n)
    {
      assert Touched(a.rules[n]) && Final(b, w, n);
    }
  }

  lemma AheadInside(a: State, b: State, name: string, w: Whole)
    requires KeptBut(a, b, name) && name in a.rules && !a.rules[name].made && Ahead(b, w)
    requires forall n :: n in b.ran ==> n in a.ran || n == name
    ensures Ahead(a, w)
  {
    forall n | n in a.rules && a.rules[n].made
      ensures Final(a, w, n)
    {
      assert Touched(a.rules[n]) && Final(b, w, n);
    }
  }

  lemma LatestTransitive(t: nat, u: nat, own: nat, first: set<string>, more: set<string>, st: State)
    requires Latest(u, own, first, st) && Latest(t, u, more, st)
    ensures Latest(t, own, first + more, st)
  {
    forall p, v: nat | p in first + more && Counts(st, p, v)
      ensures v <= t
    {
    }
    if t != own {
      if t == u {
        assert exists p :: p in first && Counts(st, p, t);
      } else {
        assert exists p :: p in more && Counts(st, p, t);
      }
    }
  }

  lemma LatestPropagated(t: nat, name: string, w: Whole)
    requires name in w.st.rules
    ensures Latest(Propagate(w.st.rules[name], t), t, {name}, w.st)
  {
    var q := w.st.rules[name];
    if !q.attributes.ignore { assert Counts(w.st, name, q.time); }
  }

  /** A block leaves everything in it right, and its time is the latest of what it needs. */
  lemma {:induction false} CommandsRight(w: Whole, r: string, cmds: seq<Command>, st: State, b: Block)
    requires InBlock(st, r, b) && Begun(w.(st := st))
    requires Fresh(w.c, cmds, st)
    requires var res := Commands(w.c, r, cmds, st, b); res.Some? && Ahead(res.value.0, w)
    ensures Right(w, cmds, SeenOf(st))
    ensures Latest(Commands(w.c, r, cmds, st, b).value.1.modtime, b.modtime, Needs(w.c.strict, cmds, SeenOf(st)), w.st)
    decreases cmds, 0
  {
    if cmds != [] {
      var (st1, b1) := Step(w.c, r, cmds[0], st, b).value;
      var (st', b') := Commands(w.c, r, cmds, st, b).value;
      FreshSplit(w.c, r, cmds, st, b);
      StepKeeps(w.c, r, cmds[0], st, b);
      StepRuns(w.(st := st), r, cmds[0], b);
      CommandsKeep(w.c, r, cmds[1..], st1, b1);
      CommandsRun(w.(st := st1), r, cmds[1..], b1);
      AheadBefore(st1, st', r, w);
      TracksOne(w.c, r, cmds[0], st, b, false);
      StepRight(w, r, cmds[0], st, b);
      CommandsRight(w, r, cmds[1..], st1, b1);
      LatestTransitive(b'.modtime, b1.modtime, b.modtime, NeedsOne(w.c.strict, cmds[0], SeenOf(st)),
                       Needs(w.c.strict, cmds[1..], SeenOf(st1)), w.st);
    }
  }

  lemma {:induction false} StepRight(w: Whole, r: string, cmd: Command, st: State, b: Block)
    requires InBlock(st, r, b) && Begun(w.(st := st))
    requires FreshOne(w.c, cmd, st)
    requires var res := Step(w.c, r, cmd, st, b); res.Some? && Ahead(res.value.0, w)
    ensures RightOne(w, cmd, SeenOf(st))
    ensures Latest(Step(w.c, r, cmd, st, b).value.1.modtime, b.modtime, NeedsOne(w.c.strict, cmd, SeenOf(st)), w.st)
    decreases cmd, 0
  {
    hide Right, TargetRight, SourceRight, RanRight, Kept, KeptBut;
    match cmd
    case Exec =>
    case Make(name, attrs, body) =>
      StepOfMake(w.c, r, name, attrs, body, st, b);
      MakeKeeps(w.c, name, attrs, body, st);
      MakeRight(w, name, attrs, body, st);
      LatestPropagated(b.modtime, name, w);
    case Makp(name, attrs) =>
      if name !in st.rules { DeclareRight(w, name, attrs, st, b); }
    case Prev(name, operand) =>
      if name !in st.rules {
        if w.c.strict > 0 {
          DeclareRight(w, name, if operand.Some? then operand.value else NOATTRIBUTES, st, b);
        }
      } else if st.rules[name].made {
        LatestPropagated(b.modtime, name, w);
      }
  }

  lemma DeclareRight(w: Whole, name: string, attrs: Attributes, st: State, b: Block)
    requires Begun(w.(st := st)) && name !in st.rules
    requires var res := Declare(w.c, name, attrs, st, b); res.Some? && Ahead(res.value.0, w)
    ensures SourceRight(w, name, attrs)
    ensures Latest(Declare(w.c, name, attrs, st, b).value.1.modtime, b.modtime, {name}, w.st)
  {
    var q := Declared(w.c, st, name, attrs);
    var st' := Declare(w.c, name, attrs, st, b).value.0;
    assert st'.rules[name] == q && q.made && Final(st', w, name);
    assert SameFile(w.files, st.files, name);
    LatestPropagated(b.modtime, name, w);
  }

  lemma {:induction false} MakeRight(w: Whole, name: string, attrs: Attributes, body: seq<Command>, st: State)
    requires Sane(st) && Begun(w.(st := st)) && !Touched(Lookup(w.c, st, name))
    requires FreshOne(w.c, Make(name, attrs, body), st)
    requires var res := MakeRule(w.c, name, body, StartMake(w.c, st, name, attrs)); res.Some? && Ahead(res.value, w)
    ensures RightOne(w, Make(name, attrs, body), SeenOf(st))
    decreases body, 1
  {
    hide Sane, Kept, KeptBut, Begin, Commands, Done, RanRight, Ahead, Reads, Latest, Right, TargetRight;
    var (a, x) := Begin(w.c, name, attrs, st);
    MakeParts(w.c, name, attrs, body, st);
    FreshBody(w.c, name, attrs, body, st);
    BeginKeeps(w.c, name, attrs, st);
    BeginSeen(w.c, name, attrs, st);
    BeginBegun(w, name, attrs, st);
    CommandsKeep(w.c, name, body, a, x);
    CommandsRun(w.(st := a), name, body, x);
    var (e, y) := Commands(w.c, name, body, a, x).value;
    DoneKeeps(w.c, name, e, y);
    DoneRuns(w.(st := e), name, y);
    StillMaking(e, name, y);
    AheadInside(e, Done(w.c, name, e, y).value, name, w);
    CommandsRight(w, name, body, a, x);
    BeginFile(w, name, attrs, st, e);
    ActionIsExec(w.c, name, body, a, x);
    DoneRight(w, name, attrs, e, y, Needs(w.c.strict, body, SeenOf(a)));
  }

  lemma StillMaking(st: State, name: string, b: Block)
    requires InBlock(st, name, b)
    ensures !st.rules[name].made
  {
  }

  lemma MakeParts(c: Config, name: string, attrs: Attributes, body: seq<Command>, st: State)
    requires MakeRule(c, name, body, StartMake(c, st, name, attrs)).Some?
    ensures var (a, x) := Begin(c, name, attrs, st);
      && name in a.rules && Commands(c, name, body, a, x).Some?
      && var (e, y) := Commands(c, name, body, a, x).value;
      Done(c, name, e, y) == MakeRule(c, name, body, StartMake(c, st, name, attrs))
  {
  }

  lemma BeginBegun(w: Whole, name: string, attrs: Attributes, st: State)
    requires Begun(w.(st := st)) && !Touched(Lookup(w.c, st, name))
    ensures Begun(w.(st := Begin(w.c, name, attrs, st).0))
    ensures !Begin(w.c, name, attrs, st).1.action
  {
    StillBegun(w.(st := st), Begin(w.c, name, attrs, st).0);
  }

  /** At done the target has the time stamp its file had at the start of the run. */
  lemma BeginFile(w: Whole, name: string, attrs: Attributes, st: State, e: State)
    requires Sane(st) && Begun(w.(st := st)) && !Touched(Lookup(w.c, st, name))
    requires Kept(Begin(w.c, name, attrs, st).0, e, name)
    ensures name in e.rules && e.rules[name].time == Begin(w.c, name, attrs, st).1.modtime
    ensures e.rules[name].attributes.virtual == attrs.virtual && e.rules[name].attributes.ignore == attrs.ignore
    ensures e.rules[name].time == if attrs.virtual then 0 else FileTime(w.files, name)
  {
    var (a, x) := Begin(w.c, name, attrs, st);
    TargetAtDone(w.c, name, attrs, st, e);
    BeginIs(w.c, name, attrs, st);
    assert Touched(a.rules[name]) && name !in st.ran;
    assert SameFile(w.files, st.files, name);
  }

  lemma ActionIsExec(c: Config, r: string, cmds: seq<Command>, st: State, b: Block)
    requires r in st.rules && Commands(c, r, cmds, st, b).Some? && !b.action
    ensures Commands(c, r, cmds, st, b).value.1.action <==> Exec in cmds
  {
    if Exec in cmds {
      ExecMeansAction(c, r, cmds, st, b);
    } else {
      NoExecNoAction(c, r, cmds, st, b);
    }
  }

  /** The comparison at done, from the files and what the block needs. */
  lemma DueIsOutdated(w: Whole, name: string, needs: set<string>, t: nat)
    requires Latest(t, FileTime(w.files, name), needs, w.st)
    ensures Due(w, name, needs) <==> FileTime(w.files, name) < t || t == 0
  {
    var own := FileTime(w.files, name);
    if own < t {
      assert exists p :: p in needs && Counts(w.st, p, t);
    }
  }

  lemma LatestMoved(t: nat, own: nat, later: nat, needs: set<string>, st: State)
    requires Latest(t, own, needs, st) && own <= later
    ensures Latest(Max(t, later), later, needs, st)
  {
    if Max(t, later) != later {
      assert exists p :: p in needs && Counts(st, p, t);
    }
  }

  /** Everything done changes, by whether the action runs. */
  lemma DoneIs(c: Config, name: string, e: State, y: Block)
    requires InBlock(e, name, y) && e.rules[name].time <= y.modtime && Done(c, name, e, y).Some?
    ensures var t := Done(c, name, e, y).value;
      var (q, q') := (e.rules[name], t.rules[name]);
      && name in t.rules && q'.attributes == q.attributes
      && if !(y.action && (q.time < y.modtime || y.modtime == 0)) then
           t.ran == e.ran && t.files == e.files && q'.time == y.modtime
         else
           && t.ran == e.ran + [name]
           && t.clock == ClockAfterOne(c, e) && e.clock <= t.clock
           && t.files == (if q.attributes.virtual then e.files else e.files[name := t.clock])
           && (!q.attributes.ignore ==>
                 q'.time == Max(y.modtime, if name in t.files then t.files[name] else t.clock))
  {
  }

  function ClockAfterOne(c: Config, st: State): nat {
    st.clock + c.tick(|st.ran|)
  }

  lemma DoneRight(w: Whole, name: string, attrs: Attributes, e: State, y: Block, needs: set<string>)
    requires InBlock(e, name, y) && Begun(w.(st := e))
    requires Latest(y.modtime, e.rules[name].time, needs, w.st)
    requires e.rules[name].attributes.virtual == attrs.virtual && e.rules[name].attributes.ignore == attrs.ignore
    requires e.rules[name].time == if attrs.virtual then 0 else FileTime(w.files, name)
    requires var res := Done(w.c, name, e, y); res.Some? && Ahead(res.value, w)
    ensures TargetRight(w, name, attrs, y.action, needs)
  {
    hide Latest, Due, Done, TimeRight;
    var t := Done(w.c, name, e, y).value;
    LatestCovers(y.modtime, e.rules[name].time, needs, w.st);
    DoneIs(w.c, name, e, y);
    DoneKeeps(w.c, name, e, y);
    DoneRuns(w.(st := e), name, y);
    assert Final(t, w, name) && name !in e.ran;
    assert SameFile(w.files, e.files, name);
    if !attrs.virtual { DueIsOutdated(w, name, needs, y.modtime); }
    if t.ran == e.ran + [name] { assert w.st.ran[|e.ran|] == name; }
    assert name in w.st.ran <==> t.ran == e.ran + [name];
    if y.action && !attrs.virtual {
      assert name in w.st.files;
      assert y.modtime <= w.st.files[name];
    }
    if !attrs.ignore { DoneTime(w, name, attrs, e, y, needs); }
  }

  lemma DoneTime(w: Whole, name: string, attrs: Attributes, e: State, y: Block, needs: set<string>)
    requires InBlock(e, name, y) && Begun(w.(st := e)) && !attrs.ignore
    requires Latest(y.modtime, e.rules[name].time, needs, w.st)
    requires e.rules[name].attributes.virtual == attrs.virtual && e.rules[name].attributes.ignore == attrs.ignore
    requires e.rules[name].time == if attrs.virtual then 0 else FileTime(w.files, name)
    requires var res := Done(w.c, name, e, y); res.Some? && Ahead(res.value, w)
    ensures TimeRight(w, name, attrs, needs)
  {
    hide Latest, Done;
    var t := Done(w.c, name, e, y).value;
    LatestCovers(y.modtime, e.rules[name].time, needs, w.st);
    DoneIs(w.c, name, e, y);
    DoneKeeps(w.c, name, e, y);
    assert Final(t, w, name) && name !in e.ran;
    assert SameFile(w.files, e.files, name);
    if t.ran == e.ran + [name] {
      var k := |e.ran|;
      assert w.st.ran[k] == name;
      assert t.clock == ClockAfter(w.c, w.clock, k + 1);
      LatestMoved(y.modtime, e.rules[name].time, FileTime(t.files, name), needs, w.st);
      LatestMoved(y.modtime, e.rules[name].time, t.clock, needs, w.st);
    }
  }

  lemma LatestCovers(t: nat, own: nat, needs: set<string>, st: State)
    requires Latest(t, own, needs, st)
    ensures own <= t && forall p, u: nat :: p in needs && Counts(st, p, u) ==> u <= t
  {
  }

  lemma InitialBegun(c: Config, files: map<string, nat>, clock: nat)
    ensures Begun(Whole(c, files, clock, Initial(files, clock)))
  {
  }

  /**
   Any completed run of a Mamfile that makes no rule twice: every source and target is right,
   and what ran are targets with an action, each once and at its time.
   */
  lemma FirstRunIsRight(c: Config, cmds: seq<Command>, files: map<string, nat>, clock: nat)
    requires PastFiles(files, clock) && (c.strict >= 3 || !MadeTwice(c.strict, cmds)) && Build(c, cmds, files, clock).Some?
    ensures var w := Whole(c, files, clock, Build(c, cmds, files, clock).value);
      && Right(w, cmds, Seen({""}, {}, false))
      && RanRight(w) && forall n :: n in w.st.ran ==> n in Acting(cmds)
  {
    if c.strict >= 3 { StrictNeverRemakes(c, cmds, files, clock); }
    var st := Initial(files, clock);
    var w := Whole(c, files, clock, Build(c, cmds, files, clock).value);
    InitialSeen(files, clock);
    InitialBegun(c, files, clock);
    CommandsRun(w.(st := st), "", cmds, Block(0, false));
    CommandsRight(w, "", cmds, st, Block(0, false));
  }

  // ---- Which Mamfiles are refused ----

  predicate Permitted(strict: nat, name: string, attrs: Attributes, present: set<string>) {
    attrs.virtual || attrs.dontcare || (strict == 0 && ObsoleteLicense(name)) || name in present
  }

  /** From the text, the names of the blocks it is in, and the names of the files at the start. */
  predicate Accepts(strict: nat, cmds: seq<Command>, s: Seen, open: set<string>, present: set<string>)
    decreases cmds, 0
  {
    cmds != [] ==>
      && AcceptsOne(strict, cmds[0], s, open, present)
      && Accepts(strict, cmds[1..], ReadsOne(strict, cmds[0], s), open, present)
  }

  predicate AcceptsOne(strict: nat, cmd: Command, s: Seen, open: set<string>, present: set<string>)
    decreases cmd, 0
  {
    match cmd
    case Exec => true
    case Make(name, attrs, body) =>
      && name !in open && (strict < 3 || name !in s.made)
      && Accepts(strict, body, MakeSeen(name, s), open + {name}, present)
      && (Exec in body || Permitted(strict, name, attrs, present))
    case Makp(name, attrs) => if name in s.known then name !in s.made else Permitted(strict, name, attrs, present)
    case Prev(name, operand) =>
      if name in s.known then operand.None? && (strict < 3 || name !in open)
      else strict == 0 || (strict < 4 && Permitted(strict, name, if operand.Some? then operand.value else NOATTRIBUTES, present))
  }

  lemma ObsoleteLicenseMeans(name: string)
    ensures ObsoleteLicense(name) <==> exists mid: string :: name == "/" + mid + ".lic"
  {
    if ObsoleteLicense(name) {
      assert name == "/" + name[1..|name| - 4] + ".lic";
    }
    if mid: string :| name == "/" + mid + ".lic" {
      assert name[|name| - 4..] == ".lic";
    }
  }

  function Making(st: State): set<string> {
    set n | n in st.rules && st.rules[n].making
  }

  /** A rule neither made nor being made is as new. */
  ghost predicate Blank(c: Config, st: State) {
    forall n :: n in st.rules && !Touched(st.rules[n]) ==>
                  st.rules[n].attributes.dontcare == (c.strict == 0 && ObsoleteLicense(n))
  }

  lemma {:induction false} StaysBlank(c: Config, r: string, cmds: seq<Command>, st: State, b: Block)
    requires r in st.rules && st.rules[r].making && Blank(c, st) && Commands(c, r, cmds, st, b).Some?
    ensures var st' := Commands(c, r, cmds, st, b).value.0;
      Blank(c, st') && Making(st') == Making(st) && st'.rules[r].making
    decreases cmds, 0
  {
    if cmds != [] {
      var (st1, b1) := Step(c, r, cmds[0], st, b).value;
      StepStaysBlank(c, r, cmds[0], st, b);
      assert r in Making(st);
      StaysBlank(c, r, cmds[1..], st1, b1);
    }
  }

  lemma {:induction false} StepStaysBlank(c: Config, r: string, cmd: Command, st: State, b: Block)
    requires r in st.rules && st.rules[r].making && Blank(c, st) && Step(c, r, cmd, st, b).Some?
    ensures var st' := Step(c, r, cmd, st, b).value.0; Blank(c, st') && Making(st') == Making(st)
    decreases cmd, 0
  {
    hide ObsoleteLicense, MakeRule, Begin, Done, Blank;
    if cmd.Make? {
      StepOfMake(c, r, cmd.target, cmd.attributes, cmd.body, st, b);
      var (a, x) := Begin(c, cmd.target, cmd.attributes, st);
      BeginStaysBlank(c, cmd.target, cmd.attributes, st);
      MakeParts(c, cmd.target, cmd.attributes, cmd.body, st);
      StaysBlank(c, cmd.target, cmd.body, a, x);
      var (e, y) := Commands(c, cmd.target, cmd.body, a, x).value;
      DoneStaysBlank(c, cmd.target, e, y);
    } else {
      PlainStaysBlank(c, r, cmd, st, b);
    }
  }

  lemma BeginStaysBlank(c: Config, name: string, attrs: Attributes, st: State)
    requires Blank(c, st) && !Lookup(c, st, name).making
    ensures var a := Begin(c, name, attrs, st).0;
      Blank(c, a) && name in a.rules && a.rules[name].making && Making(a) == Making(st) + {name} && name !in Making(st)
  {
    hide ObsoleteLicense;
  }

  lemma DoneStaysBlank(c: Config, name: string, e: State, y: Block)
    requires Blank(c, e) && name in e.rules && Done(c, name, e, y).Some?
    ensures var t := Done(c, name, e, y).value; Blank(c, t) && Making(t) == Making(e) - {name}
  {
    hide ObsoleteLicense;
  }

  lemma PlainStaysBlank(c: Config, r: string, cmd: Command, st: State, b: Block)
    requires r in st.rules && st.rules[r].making && Blank(c, st) && !cmd.Make? && Step(c, r, cmd, st, b).Some?
    ensures var st' := Step(c, r, cmd, st, b).value.0; Blank(c, st') && Making(st') == Making(st)
  {
    hide ObsoleteLicense;
    var st' := Step(c, r, cmd, st, b).value.0;
    assert forall n :: n in st'.rules && n in st.rules ==> st'.rules[n].making == st.rules[n].making;
  }

  lemma {:induction false} ExecGenerates(c: Config, r: string, cmds: seq<Command>, st: State, b: Block)
    requires InBlock(st, r, b) && Fresh(c, cmds, st) && Commands(c, r, cmds, st, b).Some?
    ensures Commands(c, r, cmds, st, b).value.0.rules[r].generated <==> st.rules[r].generated || Exec in cmds
    decreases cmds, 0
  {
    hide Sane, Fresh, Reads;
    if cmds != [] {
      var (st1, b1) := Step(c, r, cmds[0], st, b).value;
      FreshSplit(c, r, cmds, st, b);
      StepKeeps(c, r, cmds[0], st, b);
      if cmds[0].Make? {
        StepOfMake(c, r, cmds[0].target, cmds[0].attributes, cmds[0].body, st, b);
        MakeKeeps(c, cmds[0].target, cmds[0].attributes, cmds[0].body, st);
      }
      ExecGenerates(c, r, cmds[1..], st1, b1);
    }
  }

  /** The rest of a block is read to its end exactly if its text says so. */
  lemma {:induction false} CommandsAccepted(w: Whole, r: string, cmds: seq<Command>, b: Block)
    requires InBlock(w.st, r, b) && Begun(w) && Blank(w.c, w.st) && (w.c.strict >= 3 || Fresh(w.c, cmds, w.st))
    ensures Commands(w.c, r, cmds, w.st, b).Some? <==>
            Accepts(w.c.strict, cmds, SeenOf(w.st), Making(w.st), w.files.Keys)
    decreases cmds, 0
  {
    if cmds != [] {
      TwiceGrows(w.c.strict, cmds[1..], ReadsOne(w.c.strict, cmds[0], SeenOf(w.st)));
      StepAccepted(w, r, cmds[0], b);
      var res := Step(w.c, r, cmds[0], w.st, b);
      if res.Some? {
        var (st1, b1) := res.value;
        if w.c.strict >= 3 { StrictIsFreshOne(w.c, r, cmds[0], w.st, b); } else { FreshSplit(w.c, r, cmds, w.st, b); }
        StepKeeps(w.c, r, cmds[0], w.st, b);
        StepRuns(w, r, cmds[0], b);
        StepStaysBlank(w.c, r, cmds[0], w.st, b);
        TracksOne(w.c, r, cmds[0], w.st, b, false);
        CommandsAccepted(w.(st := st1), r, cmds[1..], b1);
      }
    }
  }

  lemma {:induction false} StepAccepted(w: Whole, r: string, cmd: Command, b: Block)
    requires InBlock(w.st, r, b) && Begun(w) && Blank(w.c, w.st) && (w.c.strict >= 3 || FreshOne(w.c, cmd, w.st))
    ensures Step(w.c, r, cmd, w.st, b).Some? <==>
            AcceptsOne(w.c.strict, cmd, SeenOf(w.st), Making(w.st), w.files.Keys)
    decreases cmd, 0
  {
    match cmd
    case Exec =>
    case Make(name, attrs, body) =>
      if w.c.strict < 3 { FreshBody(w.c, name, attrs, body, w.st); }
      if !Touched(Lookup(w.c, w.st, name)) {
        MakeAccepted(w, name, attrs, body);
        StepOfMake(w.c, r, name, attrs, body, w.st, b);
      }
    case Makp(name, attrs) =>
      if name !in w.st.rules { DeclareAccepted(w, name, attrs, b); }
    case Prev(name, operand) =>
      if name !in w.st.rules { DeclareAccepted(w, name, if operand.Some? then operand.value else NOATTRIBUTES, b); }
  }

  lemma DeclareAccepted(w: Whole, name: string, attrs: Attributes, b: Block)
    requires Begun(w) && name !in w.st.rules
    ensures Declare(w.c, name, attrs, w.st, b).Some? <==> Permitted(w.c.strict, name, attrs, w.files.Keys)
  {
    assert SameFile(w.files, w.st.files, name);
  }

  lemma {:induction false} MakeAccepted(w: Whole, name: string, attrs: Attributes, body: seq<Command>)
    requires Sane(w.st) && Begun(w) && Blank(w.c, w.st) && !Touched(Lookup(w.c, w.st, name))
    requires w.c.strict >= 3 || FreshOne(w.c, Make(name, attrs, body), w.st)
    ensures MakeRule(w.c, name, body, StartMake(w.c, w.st, name, attrs)).Some? <==>
            && Accepts(w.c.strict, body, MakeSeen(name, SeenOf(w.st)), Making(w.st) + {name}, w.files.Keys)
            && (Exec in body || Permitted(w.c.strict, name, attrs, w.files.Keys))
    decreases body, 1
  {
    hide RanRight, Done, Permitted;
    var (a, x) := Begin(w.c, name, attrs, w.st);
    BeginKeeps(w.c, name, attrs, w.st);
    BeginSeen(w.c, name, attrs, w.st);
    BeginBegun(w, name, attrs, w.st);
    if w.c.strict < 3 { FreshBody(w.c, name, attrs, body, w.st); }
    assert Making(a) == Making(w.st) + {name};
    CommandsAccepted(w.(st := a), name, body, x);
    var res := Commands(w.c, name, body, a, x);
    if res.Some? {
      if w.c.strict >= 3 { StrictIsFresh(w.c, name, body, a, x); }
      CommandsKeep(w.c, name, body, a, x);
      TargetAtDone(w.c, name, attrs, w.st, res.value.0);
      ExecGenerates(w.c, name, body, a, x);
      ActionIsExec(w.c, name, body, a, x);
      DoneAccepted(w, name, attrs, res.value.0, res.value.1, Exec in body);
    }
  }

  lemma DoneAccepted(w: Whole, name: string, attrs: Attributes, e: State, y: Block, action: bool)
    requires Sane(w.st) && Begun(w) && Blank(w.c, w.st) && !Touched(Lookup(w.c, w.st, name))
    requires Kept(Begin(w.c, name, attrs, w.st).0, e, name)
    requires name in e.rules && (e.rules[name].generated <==> action) && (y.action <==> action)
    ensures Done(w.c, name, e, y).Some? <==> action || Permitted(w.c.strict, name, attrs, w.files.Keys)
  {
    BeginIs(w.c, name, attrs, w.st);
    TargetAtDone(w.c, name, attrs, w.st, e);
    assert Touched(Begin(w.c, name, attrs, w.st).0.rules[name]);
    assert SameFile(w.files, w.st.files, name);
  }

  /** A Mamfile that makes no rule twice is refused exactly if its text and the names of the files say so. */
  lemma RefusedExactly(c: Config, cmds: seq<Command>, files: map<string, nat>, clock: nat)
    requires PastFiles(files, clock) && (c.strict >= 3 || !MadeTwice(c.strict, cmds))
    ensures Build(c, cmds, files, clock).None? <==> !Accepts(c.strict, cmds, Seen({""}, {}, false), {""}, files.Keys)
  {
    var w := Whole(c, files, clock, Initial(files, clock));
    InitialSeen(files, clock);
    InitialBegun(c, files, clock);
    assert Making(w.st) == {""};
    CommandsAccepted(w, "", cmds, Block(0, false));
  }

  // ---- What holds of rules made again, too ----

  predicate Within(a: Attributes, b: Attributes) {
    (a.virtual ==> b.virtual) && (a.ignore ==> b.ignore) && (a.dontcare ==> b.dontcare)
  }

  ghost predicate Grown(st: State, st': State) {
    forall n :: n in st.rules ==> n in st'.rules && Within(st.rules[n].attributes, st'.rules[n].attributes)
  }

  /** No attribute given to a rule is lost. */
  lemma {:induction false} AttributesStay(c: Config, r: string, cmds: seq<Command>, st: State, b: Block)
    requires r in st.rules && Commands(c, r, cmds, st, b).Some?
    ensures Grown(st, Commands(c, r, cmds, st, b).value.0)
    ensures forall i :: 0 <= i < |cmds| && cmds[i].Make? ==>
              var q := Commands(c, r, cmds, st, b).value.0.rules;
              cmds[i].target in q && Within(cmds[i].attributes, q[cmds[i].target].attributes)
    decreases cmds, 0
  {
    if cmds != [] {
      var (st1, b1) := Step(c, r, cmds[0], st, b).value;
      StepAttributesStay(c, r, cmds[0], st, b);
      AttributesStay(c, r, cmds[1..], st1, b1);
      var q := Commands(c, r, cmds, st, b).value.0.rules;
      forall i | 0 <= i < |cmds| && cmds[i].Make?
        ensures cmds[i].target in q && Within(cmds[i].attributes, q[cmds[i].target].attributes)
      {
        assert i > 0 ==> cmds[i] == cmds[1..][i - 1];
      }
    }
  }

  lemma {:induction false} StepAttributesStay(c: Config, r: string, cmd: Command, st: State, b: Block)
    requires r in st.rules && Step(c, r, cmd, st, b).Some?
    ensures var st' := Step(c, r, cmd, st, b).value.0;
      && Grown(st, st')
      && (cmd.Make? ==> cmd.target in st'.rules && Within(cmd.attributes, st'.rules[cmd.target].attributes))
    decreases cmd, 0
  {
    if cmd.Make? {
      var (a, x) := Begin(c, cmd.target, cmd.attributes, st);
      StepOfMake(c, r, cmd.target, cmd.attributes, cmd.body, st, b);
      MakeParts(c, cmd.target, cmd.attributes, cmd.body, st);
      BeginAttributes(c, cmd.target, cmd.attributes, st);
      AttributesStay(c, cmd.target, cmd.body, a, x);
      var (e, y) := Commands(c, cmd.target, cmd.body, a, x).value;
      DoneAttributes(c, cmd.target, e, y);
    }
  }

  lemma BeginAttributes(c: Config, name: string, attrs: Attributes, st: State)
    ensures var a := Begin(c, name, attrs, st).0;
      Grown(st, a) && name in a.rules && Within(attrs, a.rules[name].attributes)
  {
  }

  lemma DoneAttributes(c: Config, name: string, e: State, y: Block)
    requires name in e.rules && Done(c, name, e, y).Some?
    ensures Grown(e, Done(c, name, e, y).value)
  {
  }
}
