/** A second run right after a completed one has nothing to do. */
module RebuildProofs {
  import opened Options
  import opened Rebuild

  // ---- Which rules a block makes, from its text alone ----

  /** The names that have a rule, the names that have been made, and whether one was made again. */
  datatype Seen = Seen(known: set<string>, made: set<string>, twice: bool)

  function Reads(strict: nat, cmds: seq<Command>, s: Seen): Seen
    decreases cmds, 0
  {
    if cmds == [] then s else Reads(strict, cmds[1..], ReadsOne(strict, cmds[0], s))
  }

  function ReadsOne(strict: nat, cmd: Command, s: Seen): Seen
    decreases cmd, 0
  {
    match cmd
    case Exec => s
    case Make(name, _, body) =>
      var s' := Reads(strict, body, MakeSeen(name, s));
      s'.(made := s'.made + {name})
    case Makp(name, _) => if name in s.known then s else Seen(s.known + {name}, s.made + {name}, s.twice)
    case Prev(name, _) =>
      if name in s.known then s
      else Seen(s.known + {name}, if strict == 0 then s.made else s.made + {name}, s.twice)
  }

  function MakeSeen(name: string, s: Seen): Seen {
    Seen(s.known + {name}, s.made, s.twice || name in s.made)
  }

  /** Some rule is made after it has already been made; before anything only the empty name has a rule. */
  predicate MadeTwice(strict: nat, cmds: seq<Command>) {
    Reads(strict, cmds, Seen({""}, {}, false)).twice
  }

  function SeenOf(st: State): Seen {
    Seen(st.rules.Keys, set n | n in st.rules && st.rules[n].made, false)
  }

  predicate Fresh(c: Config, cmds: seq<Command>, st: State) {
    !Reads(c.strict, cmds, SeenOf(st)).twice
  }

  predicate FreshOne(c: Config, cmd: Command, st: State) {
    !ReadsOne(c.strict, cmd, SeenOf(st)).twice
  }

  lemma {:induction false} TwiceGrows(strict: nat, cmds: seq<Command>, s: Seen)
    ensures s.twice ==> Reads(strict, cmds, s).twice
    decreases cmds, 0
  {
    if cmds != [] {
      TwiceGrowsOne(strict, cmds[0], s);
      TwiceGrows(strict, cmds[1..], ReadsOne(strict, cmds[0], s));
    }
  }

  lemma {:induction false} TwiceGrowsOne(strict: nat, cmd: Command, s: Seen)
    ensures s.twice ==> ReadsOne(strict, cmd, s).twice
    decreases cmd, 0
  {
    if cmd.Make? {
      TwiceGrows(strict, cmd.body, MakeSeen(cmd.target, s));
    }
  }

  /** Reading the text keeps count of the rule table. */
  lemma {:induction false} Tracks(c: Config, r: string, cmds: seq<Command>, st: State, b: Block, twice: bool)
    requires r in st.rules && Commands(c, r, cmds, st, b).Some?
    ensures var s := Reads(c.strict, cmds, SeenOf(st).(twice := twice));
      s == SeenOf(Commands(c, r, cmds, st, b).value.0).(twice := s.twice)
    decreases cmds, 0
  {
    if cmds != [] {
      var (st1, b1) := Step(c, r, cmds[0], st, b).value;
      TracksOne(c, r, cmds[0], st, b, twice);
      Tracks(c, r, cmds[1..], st1, b1, ReadsOne(c.strict, cmds[0], SeenOf(st).(twice := twice)).twice);
    }
  }

  lemma {:induction false} TracksOne(c: Config, r: string, cmd: Command, st: State, b: Block, twice: bool)
    requires r in st.rules && Step(c, r, cmd, st, b).Some?
    ensures var s := ReadsOne(c.strict, cmd, SeenOf(st).(twice := twice));
      s == SeenOf(Step(c, r, cmd, st, b).value.0).(twice := s.twice)
    decreases cmd, 0
  {
    if cmd.Make? {
      var (st2, b2) := Begin(c, cmd.target, cmd.attributes, st);
      BeginSeen(c, cmd.target, cmd.attributes, st);
      Tracks(c, cmd.target, cmd.body, st2, b2, twice || cmd.target in SeenOf(st).made);
      DoneSeen(c, cmd.target, Commands(c, cmd.target, cmd.body, st2, b2).value.0, Commands(c, cmd.target, cmd.body, st2, b2).value.1);
    }
  }

  lemma BeginSeen(c: Config, name: string, attrs: Attributes, st: State)
    ensures SeenOf(Begin(c, name, attrs, st).0) == MakeSeen(name, SeenOf(st)).(twice := false)
  {
  }

  lemma DoneSeen(c: Config, name: string, st: State, b: Block)
    requires name in st.rules && Done(c, name, st, b).Some?
    ensures SeenOf(Done(c, name, st, b).value) == Seen(st.rules.Keys, SeenOf(st).made + {name}, false)
  {
  }

  lemma FreshSplit(c: Config, r: string, cmds: seq<Command>, st: State, b: Block)
    requires r in st.rules && cmds != [] && Fresh(c, cmds, st) && Step(c, r, cmds[0], st, b).Some?
    ensures FreshOne(c, cmds[0], st) && Fresh(c, cmds[1..], Step(c, r, cmds[0], st, b).value.0)
  {
    TracksOne(c, r, cmds[0], st, b, false);
    TwiceGrows(c.strict, cmds[1..], ReadsOne(c.strict, cmds[0], SeenOf(st)));
  }

  lemma FreshBody(c: Config, name: string, attrs: Attributes, body: seq<Command>, st: State)
    requires FreshOne(c, Make(name, attrs, body), st)
    ensures !Lookup(c, st, name).made && Fresh(c, body, Begin(c, name, attrs, st).0)
  {
    BeginSeen(c, name, attrs, st);
    TwiceGrows(c.strict, body, MakeSeen(name, SeenOf(st)));
  }

  // ---- What a completed block keeps ----

  /** No time stamp is in the future, and a rule not yet touched knows nothing. */
  ghost predicate Sane(st: State) {
    && 1 <= st.clock
    && (forall n :: n in st.files ==> st.files[n] <= st.clock)
    && (forall n :: n in st.rules ==> SaneRule(st.rules[n], st.clock))
  }

  ghost predicate SaneRule(q: Rule, clock: nat) {
    && q.time <= clock
    && (!q.made && !q.making ==>
          q.time == 0 && !q.exist && !q.generated && !q.attributes.virtual && !q.attributes.ignore)
    && !(q.made && q.making)
  }

  /** What cannot change while a block of rule r is read: rules already made or being made, and their files. */
  ghost predicate Kept(st: State, st': State, r: string) {
    && st.clock <= st'.clock && st.ran <= st'.ran
    && st.rules.Keys <= st'.rules.Keys
    && (forall n :: n in st.rules && Touched(st.rules[n]) ==>
          && SameFile(st.files, st'.files, n)
          && (n != r ==> st'.rules[n] == st.rules[n])
          && (n == r ==> st'.rules[n] == st.rules[n].(generated := st'.rules[n].generated)))
  }

  ghost predicate Touched(q: Rule) {
    q.made || q.making
  }

  ghost predicate SameFile(f: map<string, nat>, g: map<string, nat>, n: string) {
    (n in f <==> n in g) && (n in f ==> f[n] == g[n])
  }

  lemma KeptTransitive(a: State, b: State, c: State, r: string)
    requires Kept(a, b, r) && Kept(b, c, r)
    ensures Kept(a, c, r)
  {
    forall n | n in a.rules && Touched(a.rules[n])
      ensures SameFile(a.files, c.files, n)
      ensures n != r ==> c.rules[n] == a.rules[n]
      ensures n == r ==> c.rules[n] == a.rules[n].(generated := c.rules[n].generated)
    {
      assert Touched(b.rules[n]);
    }
  }

  ghost predicate InBlock(st: State, r: string, b: Block) {
    Sane(st) && r in st.rules && st.rules[r].making && b.modtime <= st.clock
  }

  lemma {:induction false} CommandsKeep(c: Config, r: string, cmds: seq<Command>, st: State, b: Block)
    requires InBlock(st, r, b)
    requires Fresh(c, cmds, st) && Commands(c, r, cmds, st, b).Some?
    ensures var (st', b') := Commands(c, r, cmds, st, b).value; Kept(st, st', r) && InBlock(st', r, b')
    decreases cmds, 0
  {
    if cmds != [] {
      var (st1, b1) := Step(c, r, cmds[0], st, b).value;
      FreshSplit(c, r, cmds, st, b);
      StepKeeps(c, r, cmds[0], st, b);
      CommandsKeep(c, r, cmds[1..], st1, b1);
      KeptTransitive(st, st1, Commands(c, r, cmds, st, b).value.0, r);
    }
  }

  lemma {:induction false} StepKeeps(c: Config, r: string, cmd: Command, st: State, b: Block)
    requires InBlock(st, r, b)
    requires FreshOne(c, cmd, st) && Step(c, r, cmd, st, b).Some?
    ensures var (st', b') := Step(c, r, cmd, st, b).value; Kept(st, st', r) && InBlock(st', r, b')
    decreases cmd, 0
  {
    match cmd
    case Exec =>
    case Make(name, attrs, body) =>
      MakeKeeps(c, name, attrs, body, st);
    case Makp(name, attrs) =>
      if name !in st.rules { DeclareKeeps(c, r, name, attrs, st, b); }
    case Prev(name, operand) =>
      if name !in st.rules {
        if c.strict > 0 { DeclareKeeps(c, r, name, if operand.Some? then operand.value else NOATTRIBUTES, st, b); }
      }
  }

  lemma DeclareKeeps(c: Config, r: string, name: string, attrs: Attributes, st: State, b: Block)
    requires InBlock(st, r, b) && name !in st.rules && Declare(c, name, attrs, st, b).Some?
    ensures var (st', b') := Declare(c, name, attrs, st, b).value; Kept(st, st', r) && InBlock(st', r, b')
  {
  }

  /** As Kept, for any rule but name. */
  ghost predicate KeptBut(st: State, st': State, name: string) {
    && st.clock <= st'.clock && st.ran <= st'.ran
    && st.rules.Keys <= st'.rules.Keys
    && (forall n :: n in st.rules && n != name && Touched(st.rules[n]) ==>
          SameFile(st.files, st'.files, n) && st'.rules[n] == st.rules[n])
  }

  lemma KeptButTransitive(a: State, b: State, c: State, name: string)
    requires KeptBut(a, b, name) && KeptBut(b, c, name)
    ensures KeptBut(a, c, name)
  {
    forall n | n in a.rules && n != name && Touched(a.rules[n])
      ensures SameFile(a.files, c.files, n) && c.rules[n] == a.rules[n]
    {
      assert Touched(b.rules[n]);
    }
  }

  /** Up to and including the binding of the target. */
  function Begin(c: Config, name: string, attrs: Attributes, st: State): (State, Block) {
    Open(StartMake(c, st, name, attrs), name)
  }

  lemma BeginKeeps(c: Config, name: string, attrs: Attributes, st: State)
    requires Sane(st) && !Touched(Lookup(c, st, name))
    ensures var (st', b) := Begin(c, name, attrs, st); KeptBut(st, st', name) && InBlock(st', name, b)
  {
  }

  lemma DoneKeeps(c: Config, name: string, st: State, b: Block)
    requires InBlock(st, name, b) && Done(c, name, st, b).Some?
    ensures var st' := Done(c, name, st, b).value; KeptBut(st, st', name) && Sane(st') && st'.rules[name].made
  {
  }

  lemma {:induction false} MakeKeeps(c: Config, name: string, attrs: Attributes, body: seq<Command>, st: State)
    requires Sane(st) && !Lookup(c, st, name).making
    requires FreshOne(c, Make(name, attrs, body), st) && MakeRule(c, name, body, StartMake(c, st, name, attrs)).Some?
    ensures var st' := MakeRule(c, name, body, StartMake(c, st, name, attrs)).value;
      KeptBut(st, st', name) && Sane(st') && st'.rules[name].made && !Touched(Lookup(c, st, name))
    decreases body, 1
  {
    var (st2, b2) := Begin(c, name, attrs, st);
    var (st3, b3) := Commands(c, name, body, st2, b2).value;
    var st4 := Done(c, name, st3, b3).value;
    FreshBody(c, name, attrs, body, st);
    BeginKeeps(c, name, attrs, st);
    CommandsKeep(c, name, body, st2, b2);
    DoneKeeps(c, name, st3, b3);
    KeptButTransitive(st, st2, st3, name);
    KeptButTransitive(st, st3, st4, name);
  }

  // ---- The second run, in step with the first ----

  /** No virtual rule has an action of its own. */
  predicate Quiet(cmds: seq<Command>)
    decreases cmds
  {
    forall i :: 0 <= i < |cmds| ==> QuietOne(cmds[i])
  }

  predicate QuietOne(cmd: Command)
    decreases cmd
  {
    cmd.Make? ==> (cmd.attributes.virtual ==> Exec !in cmd.body) && Quiet(cmd.body)
  }

  lemma {:induction false} NoExecNoAction(c: Config, r: string, cmds: seq<Command>, st: State, b: Block)
    requires r in st.rules && Exec !in cmds && Commands(c, r, cmds, st, b).Some?
    ensures Commands(c, r, cmds, st, b).value.1.action == b.action
  {
    if cmds != [] {
      assert cmds[0] in cmds;
      var (st1, b1) := Step(c, r, cmds[0], st, b).value;
      NoExecNoAction(c, r, cmds[1..], st1, b1);
    }
  }

  /** The same rule at the same point of the two runs. */
  ghost predicate Similar(q1: Rule, q2: Rule) {
    && q2.made == q1.made && q2.making == q1.making && q2.generated == q1.generated && q2.attributes == q1.attributes
    && (q1.exist ==> q2.exist)
    && (q1.made && !q1.attributes.ignore ==> q2.time == q1.time)
    && (!Touched(q1) ==> q2 == q1)
  }

  ghost predicate InStep(s1: State, s2: State) {
    && s2.rules.Keys == s1.rules.Keys
    && (forall n :: n in s1.rules ==> Similar(s1.rules[n], s2.rules[n]))
  }

  lemma SeenAlike(s1: State, s2: State)
    requires InStep(s1, s2)
    ensures SeenOf(s2) == SeenOf(s1)
  {
  }

  /** files are the files the first run ends with, as far as the rules made so far go. */
  ghost predicate Settled(s1: State, files: map<string, nat>) {
    forall n :: n in s1.rules && s1.rules[n].made ==> SameFile(s1.files, files, n)
  }

  lemma SettledBefore(a: State, b: State, r: string, files: map<string, nat>)
    requires Kept(a, b, r) && Settled(b, files)
    ensures Settled(a, files)
  {
    forall n | n in a.rules && a.rules[n].made
      ensures SameFile(a.files, files, n)
    {
      assert Touched(a.rules[n]);
    }
  }

  /** The blocks started from time stamps o1 and o2 and saw the same latest prerequisite p since. */
  ghost predicate SamePrerequisites(b1: Block, b2: Block, o1: nat, o2: nat, p: nat) {
    b1.action == b2.action && b1.modtime == Max(o1, p) && b2.modtime == Max(o2, p)
  }

  lemma PropagateAlike(q1: Rule, q2: Rule, b1: Block, b2: Block, o1: nat, o2: nat, p: nat) returns (p': nat)
    requires Similar(q1, q2) && (q1.made || !Touched(q1)) && SamePrerequisites(b1, b2, o1, o2, p)
    ensures SamePrerequisites(b1.(modtime := Propagate(q1, b1.modtime)), b2.(modtime := Propagate(q2, b2.modtime)), o1, o2, p')
  {
    p' := Propagate(q1, p);
  }

  lemma {:induction false} CommandsAgain(c: Config, c': Config, r: string, cmds: seq<Command>, s1: State, b1: Block,
                                         s2: State, b2: Block, files: map<string, nat>, o1: nat, o2: nat, p: nat)
    returns (p': nat)
    requires c'.strict == c.strict && Quiet(cmds)
    requires InBlock(s1, r, b1) && InBlock(s2, r, b2) && InStep(s1, s2) && s2.files == files
    requires SamePrerequisites(b1, b2, o1, o2, p)
    requires Fresh(c, cmds, s1)
    requires var res := Commands(c, r, cmds, s1, b1); res.Some? && Settled(res.value.0, files)
    ensures var (s1', b1') := Commands(c, r, cmds, s1, b1).value;
      var res := Commands(c', r, cmds, s2, b2);
      && res.Some? && InStep(s1', res.value.0)
      && res.value.0.files == files && res.value.0.ran == s2.ran
      && SamePrerequisites(b1', res.value.1, o1, o2, p')
    decreases cmds, 0
  {
    hide Step, Sane, Similar;
    if cmds == [] {
      p' := p;
    } else {
      var (t1, d1) := Step(c, r, cmds[0], s1, b1).value;
      FreshSplit(c, r, cmds, s1, b1);
      StepKeeps(c, r, cmds[0], s1, b1);
      CommandsKeep(c, r, cmds[1..], t1, d1);
      SettledBefore(t1, Commands(c, r, cmds, s1, b1).value.0, r, files);
      SeenAlike(s1, s2);
      var p1 := StepAgain(c, c', r, cmds[0], s1, b1, s2, b2, files, o1, o2, p);
      StepKeeps(c', r, cmds[0], s2, b2);
      var (t2, d2) := Step(c', r, cmds[0], s2, b2).value;
      p' := CommandsAgain(c, c', r, cmds[1..], t1, d1, t2, d2, files, o1, o2, p1);
    }
  }

  lemma {:induction false} StepAgain(c: Config, c': Config, r: string, cmd: Command, s1: State, b1: Block,
                                     s2: State, b2: Block, files: map<string, nat>, o1: nat, o2: nat, p: nat)
    returns (p': nat)
    requires c'.strict == c.strict && QuietOne(cmd)
    requires InBlock(s1, r, b1) && InBlock(s2, r, b2) && InStep(s1, s2) && s2.files == files
    requires SamePrerequisites(b1, b2, o1, o2, p)
    requires FreshOne(c, cmd, s1)
    requires var res := Step(c, r, cmd, s1, b1); res.Some? && Settled(res.value.0, files)
    ensures var (s1', b1') := Step(c, r, cmd, s1, b1).value;
      var res := Step(c', r, cmd, s2, b2);
      && res.Some? && InStep(s1', res.value.0)
      && res.value.0.files == files && res.value.0.ran == s2.ran
      && SamePrerequisites(b1', res.value.1, o1, o2, p')
    decreases cmd, 0
  {
    p' := p;
    match cmd
    case Exec =>
      ExecAlike(s1, s2, r);
    case Make(name, attrs, body) =>
      p' := NestedAgain(c, c', r, name, attrs, body, s1, b1, s2, b2, files, o1, o2, p);
    case Makp(name, attrs) =>
      if name !in s1.rules {
        p' := DeclareAgain(c, c', name, attrs, s1, b1, s2, b2, files, o1, o2, p);
      }
    case Prev(name, operand) =>
      p' := PrevAgain(c, c', r, name, operand, s1, b1, s2, b2, files, o1, o2, p);
  }

  lemma StepOfMake(c: Config, r: string, name: string, attrs: Attributes, body: seq<Command>, st: State, b: Block)
    requires r in st.rules
    ensures var res := MakeRule(c, name, body, StartMake(c, st, name, attrs));
      var step := Step(c, r, Make(name, attrs, body), st, b);
      && (step.Some? ==> res.Some? && !Lookup(c, st, name).making)
      && (res.Some? && !Touched(Lookup(c, st, name)) ==> step.Some?)
      && (step.Some? ==> step.value == (res.value, b.(modtime := Propagate(res.value.rules[name], b.modtime))))
  {
  }

  lemma SimilarLookup(c: Config, c': Config, s1: State, s2: State, name: string)
    requires c'.strict == c.strict && InStep(s1, s2)
    ensures Similar(Lookup(c, s1, name), Lookup(c', s2, name))
  {
  }

  lemma {:induction false} NestedAgain(c: Config, c': Config, r: string, name: string, attrs: Attributes, body: seq<Command>,
                                       s1: State, b1: Block, s2: State, b2: Block, files: map<string, nat>,
                                       o1: nat, o2: nat, p: nat)
    returns (p': nat)
    requires c'.strict == c.strict && Quiet(body) && (attrs.virtual ==> Exec !in body)
    requires InBlock(s1, r, b1) && InBlock(s2, r, b2) && InStep(s1, s2) && s2.files == files
    requires SamePrerequisites(b1, b2, o1, o2, p)
    requires FreshOne(c, Make(name, attrs, body), s1)
    requires var res := Step(c, r, Make(name, attrs, body), s1, b1); res.Some? && Settled(res.value.0, files)
    ensures var (s1', b1') := Step(c, r, Make(name, attrs, body), s1, b1).value;
      var res := Step(c', r, Make(name, attrs, body), s2, b2);
      && res.Some? && InStep(s1', res.value.0)
      && res.value.0.files == files && res.value.0.ran == s2.ran
      && SamePrerequisites(b1', res.value.1, o1, o2, p')
    decreases body, 2
  {
    StepOfMake(c, r, name, attrs, body, s1, b1);
    MakeKeeps(c, name, attrs, body, s1);
    MakeAgain(c, c', name, attrs, body, s1, s2, files);
    SimilarLookup(c, c', s1, s2, name);
    StepOfMake(c', r, name, attrs, body, s2, b2);
    var t1 := MakeRule(c, name, body, StartMake(c, s1, name, attrs)).value;
    var t2 := MakeRule(c', name, body, StartMake(c', s2, name, attrs)).value;
    p' := PropagateAlike(t1.rules[name], t2.rules[name], b1, b2, o1, o2, p);
  }

  lemma PrevAgain(c: Config, c': Config, r: string, name: string, operand: Option<Attributes>, s1: State, b1: Block,
                  s2: State, b2: Block, files: map<string, nat>, o1: nat, o2: nat, p: nat)
    returns (p': nat)
    requires c'.strict == c.strict && r in s1.rules && r in s2.rules
    requires InStep(s1, s2) && s2.files == files && SamePrerequisites(b1, b2, o1, o2, p)
    requires var res := Step(c, r, Prev(name, operand), s1, b1); res.Some? && Settled(res.value.0, files)
    ensures var (s1', b1') := Step(c, r, Prev(name, operand), s1, b1).value;
      var res := Step(c', r, Prev(name, operand), s2, b2);
      && res.Some? && InStep(s1', res.value.0)
      && res.value.0.files == files && res.value.0.ran == s2.ran
      && SamePrerequisites(b1', res.value.1, o1, o2, p')
  {
    hide Settled;
    p' := p;
    if name !in s1.rules {
      if c.strict == 0 {
        AddedAlike(s1, s2, name, Lookup(c, s1, name));
      } else {
        p' := DeclareAgain(c, c', name, if operand.Some? then operand.value else NOATTRIBUTES, s1, b1, s2, b2, files, o1, o2, p);
      }
    } else if !s1.rules[name].making {
      p' := PropagateAlike(s1.rules[name], s2.rules[name], b1, b2, o1, o2, p);
    }
  }

  lemma ExecAlike(s1: State, s2: State, r: string)
    requires InStep(s1, s2) && r in s1.rules && s1.rules[r].making
    ensures InStep(s1.(rules := s1.rules[r := s1.rules[r].(generated := true)]),
                   s2.(rules := s2.rules[r := s2.rules[r].(generated := true)]))
  {
  }

  lemma DeclareAgain(c: Config, c': Config, name: string, attrs: Attributes, s1: State, b1: Block,
                     s2: State, b2: Block, files: map<string, nat>, o1: nat, o2: nat, p: nat)
    returns (p': nat)
    requires c'.strict == c.strict && name !in s1.rules
    requires InStep(s1, s2) && s2.files == files && SamePrerequisites(b1, b2, o1, o2, p)
    requires var res := Declare(c, name, attrs, s1, b1); res.Some? && Settled(res.value.0, files)
    ensures var (s1', b1') := Declare(c, name, attrs, s1, b1).value;
      var res := Declare(c', name, attrs, s2, b2);
      && res.Some? && InStep(s1', res.value.0)
      && res.value.0.files == files && res.value.0.ran == s2.ran
      && SamePrerequisites(b1', res.value.1, o1, o2, p')
  {
    var q := Declared(c, s1, name, attrs);
    assert Declare(c, name, attrs, s1, b1).value.0.rules[name].made;
    assert SameFile(s1.files, files, name);
    assert Declared(c', s2, name, attrs) == q;
    AddedAlike(s1, s2, name, q);
    p' := if q.attributes.virtual then p else Propagate(q, p);
  }

  lemma AddedAlike(s1: State, s2: State, name: string, q: Rule)
    requires InStep(s1, s2)
    ensures InStep(s1.(rules := s1.rules[name := q]), s2.(rules := s2.rules[name := q]))
  {
  }

  lemma SimilarAdded(s1: State, s2: State, name: string, q1: Rule, q2: Rule)
    requires InStep(s1, s2) && Similar(q1, q2)
    ensures InStep(s1.(rules := s1.rules[name := q1]), s2.(rules := s2.rules[name := q2]))
  {
  }

  lemma {:induction false} MakeAgain(c: Config, c': Config, name: string, attrs: Attributes, body: seq<Command>,
                                     s1: State, s2: State, files: map<string, nat>)
    requires c'.strict == c.strict && Quiet(body) && (attrs.virtual ==> Exec !in body)
    requires Sane(s1) && Sane(s2) && InStep(s1, s2) && s2.files == files && !Touched(Lookup(c, s1, name))
    requires FreshOne(c, Make(name, attrs, body), s1)
    requires var res := MakeRule(c, name, body, StartMake(c, s1, name, attrs)); res.Some? && Settled(res.value, files)
    ensures var t1 := MakeRule(c, name, body, StartMake(c, s1, name, attrs)).value;
      var res := MakeRule(c', name, body, StartMake(c', s2, name, attrs));
      && res.Some? && InStep(t1, res.value) && t1.rules[name].made
      && res.value.files == files && res.value.ran == s2.ran
    decreases body, 1
  {
    hide FreshOne, Quiet, Reads, SeenOf;
    var (a1, x1) := Begin(c, name, attrs, s1);
    var (a2, x2) := Begin(c', name, attrs, s2);
    var (e1, y1) := Commands(c, name, body, a1, x1).value;
    var t1 := Done(c, name, e1, y1).value;
    FirstMake(c, name, attrs, body, s1, files);
    BeginAgain(c, c', name, attrs, s1, s2, files);
    SimilarLookup(c, c', s1, s2, name);
    BeginKeeps(c', name, attrs, s2);
    FreshBody(c, name, attrs, body, s1);
    SeenAlike(a1, a2);
    var p := CommandsAgain(c, c', name, body, a1, x1, a2, x2, files, x1.modtime, x2.modtime, 0);
    var (e2, y2) := Commands(c', name, body, a2, x2).value;
    CommandsKeep(c', name, body, a2, x2);
    TargetAtDone(c', name, attrs, s2, e2);
    DoneAgain(c, c', name, e1, y1, e2, y2, files, p);
  }

  /** All the first run says about a block, for the second run to follow it. */
  lemma FirstMake(c: Config, name: string, attrs: Attributes, body: seq<Command>, s1: State, files: map<string, nat>)
    requires attrs.virtual ==> Exec !in body
    requires Sane(s1) && !Touched(Lookup(c, s1, name))
    requires FreshOne(c, Make(name, attrs, body), s1)
    requires var res := MakeRule(c, name, body, StartMake(c, s1, name, attrs)); res.Some? && Settled(res.value, files)
    ensures var (a1, x1) := Begin(c, name, attrs, s1);
      && InBlock(a1, name, x1) && Commands(c, name, body, a1, x1).Some?
      && var (e1, y1) := Commands(c, name, body, a1, x1).value;
      && InBlock(e1, name, y1) && Settled(e1, files)
      && (name in s1.files ==> name in files)
      && e1.rules[name].time == x1.modtime && e1.rules[name].attributes.virtual == attrs.virtual
      && (attrs.virtual ==> !y1.action && e1.rules[name].time == 0)
      && (!attrs.virtual ==> e1.rules[name].time == (if name in e1.files then e1.files[name] else 0))
  {
    var (a1, x1) := Begin(c, name, attrs, s1);
    var (e1, y1) := Commands(c, name, body, a1, x1).value;
    var t1 := Done(c, name, e1, y1).value;
    BeginKeeps(c, name, attrs, s1);
    FreshBody(c, name, attrs, body, s1);
    CommandsKeep(c, name, body, a1, x1);
    DoneKeeps(c, name, e1, y1);
    SettledInside(e1, t1, name, files);
    FileAtBegin(c, name, attrs, s1, e1, t1, y1, files);
    if attrs.virtual { NoExecNoAction(c, name, body, a1, x1); }
    TargetAtDone(c, name, attrs, s1, e1);
  }

  lemma SettledInside(a: State, b: State, name: string, files: map<string, nat>)
    requires KeptBut(a, b, name) && Settled(b, files) && name in a.rules && !a.rules[name].made
    ensures Settled(a, files)
  {
    forall n | n in a.rules && a.rules[n].made
      ensures SameFile(a.files, files, n)
    {
      assert Touched(a.rules[n]);
    }
  }

  /** A file the target had when its block began it still has in the end. */
  lemma FileAtBegin(c: Config, name: string, attrs: Attributes, s1: State, e1: State, t1: State, y1: Block, files: map<string, nat>)
    requires var (a1, x1) := Begin(c, name, attrs, s1); Kept(a1, e1, name) && InBlock(a1, name, x1)
    requires name in e1.rules && Done(c, name, e1, y1) == Some(t1) && t1.rules[name].made && Settled(t1, files)
    ensures SameFile(s1.files, e1.files, name)
    ensures name in s1.files ==> name in files
  {
    var (a1, x1) := Begin(c, name, attrs, s1);
    assert Touched(a1.rules[name]) && a1.files == s1.files;
    assert SameFile(t1.files, files, name);
  }

  /** At done a target still has the time stamp it was bound with. */
  lemma TargetAtDone(c: Config, name: string, attrs: Attributes, st: State, e: State)
    requires Sane(st) && !Touched(Lookup(c, st, name)) && Kept(Begin(c, name, attrs, st).0, e, name)
    ensures name in e.rules && e.rules[name].time == Begin(c, name, attrs, st).1.modtime
    ensures e.rules[name].attributes.virtual == attrs.virtual
    ensures attrs.virtual ==> e.rules[name].time == 0
    ensures !attrs.virtual ==>
      && e.rules[name].time == (if name in st.files then st.files[name] else 0)
      && (e.rules[name].exist <==> name in st.files)
  {
    var (a, x) := Begin(c, name, attrs, st);
    BeginIs(c, name, attrs, st);
    assert Touched(a.rules[name]);
  }

  /** The rule of a block that has just begun. */
  function Beginning(c: Config, name: string, attrs: Attributes, st: State): Rule {
    var q := Lookup(c, st, name).(attributes := Union(Lookup(c, st, name).attributes, attrs), making := true);
    if q.attributes.virtual then q else Bind(st, name, q)
  }

  lemma BeginIs(c: Config, name: string, attrs: Attributes, st: State)
    requires !Lookup(c, st, name).made
    ensures var (a, x) := Begin(c, name, attrs, st);
      var q := Beginning(c, name, attrs, st);
      a == st.(rules := st.rules[name := q]) && x == Block(if q.attributes.virtual then 0 else q.time, false)
  {
  }

  lemma BeginAgain(c: Config, c': Config, name: string, attrs: Attributes, s1: State, s2: State, files: map<string, nat>)
    requires c'.strict == c.strict && InStep(s1, s2) && s2.files == files && !Touched(Lookup(c, s1, name))
    requires name in s1.files ==> name in files
    ensures var (a1, x1), (a2, x2) := Begin(c, name, attrs, s1), Begin(c', name, attrs, s2);
      InStep(a1, a2) && a2.files == files && a2.ran == s2.ran && a2.clock == s2.clock
  {
    BeginIs(c, name, attrs, s1);
    BeginIs(c', name, attrs, s2);
    SimilarAdded(s1, s2, name, Beginning(c, name, attrs, s1), Beginning(c', name, attrs, s2));
  }

  lemma DoneAgain(c: Config, c': Config, name: string, e1: State, y1: Block, e2: State, y2: Block,
                  files: map<string, nat>, p: nat)
    requires InBlock(e1, name, y1) && InBlock(e2, name, y2) && InStep(e1, e2) && e2.files == files
    requires SamePrerequisites(y1, y2, e1.rules[name].time, e2.rules[name].time, p)
    requires e1.rules[name].attributes.virtual ==> !y1.action && e1.rules[name].time == e2.rules[name].time == 0
    requires !e1.rules[name].attributes.virtual ==>
      && e1.rules[name].time == (if name in e1.files then e1.files[name] else 0)
      && e2.rules[name].time == (if name in files then files[name] else 0)
      && (e2.rules[name].exist <==> name in files)
    requires var res := Done(c, name, e1, y1); res.Some? && Settled(res.value, files)
    ensures var t1 := Done(c, name, e1, y1).value;
      var res := Done(c', name, e2, y2);
      && res.Some? && InStep(t1, res.value) && res.value.files == files && res.value.ran == e2.ran
  {
    var t1 := Done(c, name, e1, y1).value;
    assert t1.rules[name].made && SameFile(t1.files, files, name);
  }

  // ---- An action of a virtual rule runs every time ----

  lemma {:induction false} ExecMeansAction(c: Config, r: string, cmds: seq<Command>, st: State, b: Block)
    requires r in st.rules && Commands(c, r, cmds, st, b).Some? && (b.action || Exec in cmds)
    ensures Commands(c, r, cmds, st, b).value.1.action
  {
    if cmds != [] {
      var (st1, b1) := Step(c, r, cmds[0], st, b).value;
      ExecMeansAction(c, r, cmds[1..], st1, b1);
    }
  }

  lemma QuietSplit(cmds: seq<Command>)
    ensures cmds == [] ==> Quiet(cmds)
    ensures cmds != [] ==> (Quiet(cmds) <==> QuietOne(cmds[0]) && Quiet(cmds[1..]))
  {
    if cmds != [] && QuietOne(cmds[0]) && Quiet(cmds[1..]) {
      forall i | 0 <= i < |cmds|
        ensures QuietOne(cmds[i])
      {
        assert i > 0 ==> cmds[i] == cmds[1..][i - 1];
      }
    }
  }

  lemma {:induction false} LoudRuns(c: Config, r: string, cmds: seq<Command>, st: State, b: Block)
    requires InBlock(st, r, b) && !Quiet(cmds)
    requires Fresh(c, cmds, st) && Commands(c, r, cmds, st, b).Some?
    ensures |st.ran| < |Commands(c, r, cmds, st, b).value.0.ran|
    decreases cmds, 0
  {
    var (st1, b1) := Step(c, r, cmds[0], st, b).value;
    FreshSplit(c, r, cmds, st, b);
    StepKeeps(c, r, cmds[0], st, b);
    CommandsKeep(c, r, cmds[1..], st1, b1);
    QuietSplit(cmds);
    if !QuietOne(cmds[0]) {
      MakeKeeps(c, cmds[0].target, cmds[0].attributes, cmds[0].body, st);
      LoudMakeRuns(c, cmds[0].target, cmds[0].attributes, cmds[0].body, st);
    } else {
      LoudRuns(c, r, cmds[1..], st1, b1);
    }
  }

  lemma {:induction false} LoudMakeRuns(c: Config, name: string, attrs: Attributes, body: seq<Command>, st: State)
    requires Sane(st) && !Touched(Lookup(c, st, name)) && !((attrs.virtual ==> Exec !in body) && Quiet(body))
    requires FreshOne(c, Make(name, attrs, body), st) && MakeRule(c, name, body, StartMake(c, st, name, attrs)).Some?
    ensures |st.ran| < |MakeRule(c, name, body, StartMake(c, st, name, attrs)).value.ran|
    decreases body, 1
  {
    var (a, x) := Begin(c, name, attrs, st);
    var (e, y) := Commands(c, name, body, a, x).value;
    BeginKeeps(c, name, attrs, st);
    FreshBody(c, name, attrs, body, st);
    CommandsKeep(c, name, body, a, x);
    if !Quiet(body) {
      LoudRuns(c, name, body, a, x);
      DoneKeeps(c, name, e, y);
    } else {
      ExecMeansAction(c, name, body, a, x);
      TargetAtDone(c, name, attrs, st, e);
    }
  }

  // ---- The theorems ----

  ghost predicate PastFiles(files: map<string, nat>, clock: nat) {
    1 <= clock && forall n :: n in files ==> files[n] <= clock
  }

  /** If no rule is made twice and virtual rules have no action, the second run runs nothing. */
  lemma SecondRunIsIdle(c: Config, c': Config, cmds: seq<Command>, files: map<string, nat>, clock: nat, clock': nat)
    requires c'.strict == c.strict && PastFiles(files, clock) && Quiet(cmds) && !MadeTwice(c.strict, cmds)
    requires var res := Build(c, cmds, files, clock); res.Some? && res.value.clock <= clock'
    ensures var first := Build(c, cmds, files, clock).value;
      var res := Build(c', cmds, first.files, clock');
      res.Some? && res.value.ran == [] && res.value.files == first.files
  {
    var s1 := Initial(files, clock);
    var b := Block(0, false);
    InitialSeen(files, clock);
    CommandsKeep(c, "", cmds, s1, b);
    var (t1, d1) := Commands(c, "", cmds, s1, b).value;
    var s2 := Initial(t1.files, clock');
    var p := CommandsAgain(c, c', "", cmds, s1, b, s2, b, t1.files, 0, 0, 0);
  }

  lemma InitialSeen(files: map<string, nat>, clock: nat)
    ensures SeenOf(Initial(files, clock)) == Seen({""}, {}, false)
  {
  }

  /** An action of a virtual rule runs in every completed run. */
  lemma VirtualActionsRun(c: Config, cmds: seq<Command>, files: map<string, nat>, clock: nat)
    requires PastFiles(files, clock) && !Quiet(cmds) && !MadeTwice(c.strict, cmds) && Build(c, cmds, files, clock).Some?
    ensures Build(c, cmds, files, clock).value.ran != []
  {
    InitialSeen(files, clock);
    LoudRuns(c, "", cmds, Initial(files, clock), Block(0, false));
  }

  lemma {:induction false} StrictIsFresh(c: Config, r: string, cmds: seq<Command>, st: State, b: Block)
    requires c.strict >= 3 && r in st.rules && Commands(c, r, cmds, st, b).Some?
    ensures Fresh(c, cmds, st)
    decreases cmds, 0
  {
    if cmds != [] {
      var (st1, b1) := Step(c, r, cmds[0], st, b).value;
      StrictIsFreshOne(c, r, cmds[0], st, b);
      TracksOne(c, r, cmds[0], st, b, false);
      StrictIsFresh(c, r, cmds[1..], st1, b1);
    }
  }

  lemma {:induction false} StrictIsFreshOne(c: Config, r: string, cmd: Command, st: State, b: Block)
    requires c.strict >= 3 && r in st.rules && Step(c, r, cmd, st, b).Some?
    ensures FreshOne(c, cmd, st)
    decreases cmd, 0
  {
    if cmd.Make? {
      var (st2, b2) := Begin(c, cmd.target, cmd.attributes, st);
      BeginSeen(c, cmd.target, cmd.attributes, st);
      StrictIsFresh(c, cmd.target, cmd.body, st2, b2);
    }
  }

  /** At strict level 3 and up a Mamfile that makes a rule twice is refused. */
  lemma StrictNeverRemakes(c: Config, cmds: seq<Command>, files: map<string, nat>, clock: nat)
    requires c.strict >= 3 && Build(c, cmds, files, clock).Some?
    ensures !MadeTwice(c.strict, cmds)
  {
    InitialSeen(files, clock);
    StrictIsFresh(c, "", cmds, Initial(files, clock), Block(0, false));
  }

  /**
   At every strict level: after any completed run of a Mamfile that makes no rule twice, a second
   run is idle exactly if no virtual rule has an action.
   */
  lemma RebuildIsStable(c: Config, c': Config, cmds: seq<Command>, files: map<string, nat>, clock: nat, clock': nat)
    requires c'.strict == c.strict && PastFiles(files, clock) && (c.strict >= 3 || !MadeTwice(c.strict, cmds))
    requires var res := Build(c, cmds, files, clock); res.Some? && res.value.clock <= clock'
    ensures var first := Build(c, cmds, files, clock).value;
      var res := Build(c', cmds, first.files, clock');
      (res.Some? && res.value.ran == []) <==> Quiet(cmds)
  {
    if c.strict >= 3 { StrictNeverRemakes(c, cmds, files, clock); }
    InitialSeen(files, clock);
    CommandsKeep(c, "", cmds, Initial(files, clock), Block(0, false));
    var first := Build(c, cmds, files, clock).value;
    if Quiet(cmds) {
      SecondRunIsIdle(c, c', cmds, files, clock, clock');
    } else if Build(c', cmds, first.files, clock').Some? {
      VirtualActionsRun(c', cmds, first.files, clock');
    }
  }

  /** The program run twice on one Mamfile: done tells how many runs were completed, ran what the second one ran. */
  method RunTwice(c: Config, c': Config, cmds: seq<Command>, files: map<string, nat>, clock: nat, pause: nat)
    returns (done: nat, ran: seq<string>, left: map<string, nat>, files': map<string, nat>)
    requires c'.strict == c.strict && PastFiles(files, clock) && (c.strict >= 3 || !MadeTwice(c.strict, cmds))
    ensures done <= 2 && (done == 0 <==> Build(c, cmds, files, clock).None?)
    ensures done > 0 ==> left == Build(c, cmds, files, clock).value.files
    ensures done > 0 ==> (done == 2 && ran == [] <==> Quiet(cmds))
    ensures done > 0 && Quiet(cmds) ==> files' == left
  {
    hide MadeTwice, Quiet, PastFiles, Commands;
    done, ran, left, files' := 0, [], files, files;
    var first := new Mamake(c, files, clock);
    var ok, modtime, action := first.ReadCommands("", cmds, 0, false);
    if !ok {
      return;
    }
    done, left, files' := 1, first.files, first.files;
    RebuildIsStable(c, c', cmds, files, clock, first.clock + pause);
    if Quiet(cmds) {
      if c.strict >= 3 { StrictNeverRemakes(c, cmds, files, clock); }
      SecondRunIsIdle(c, c', cmds, files, clock, first.clock + pause);
    }
    var second := new Mamake(c', first.files, first.clock + pause);
    ok, modtime, action := second.ReadCommands("", cmds, 0, false);
    if ok {
      done, ran, files' := 2, second.ran, second.files;
    }
  }

  // ---- Below strict level 3 a rule can be made after it was used ----

  const USED: Command := Make("r", NOATTRIBUTES, [Prev("q", None), Exec])
  const LATE: Command := Make("q", NOATTRIBUTES, [Makp("s", NOATTRIBUTES), Exec])

  lemma TwoCommands(c: Config, r: string, x: Command, y: Command, st: State, b: Block)
    requires r in st.rules
    ensures Commands(c, r, [x, y], st, b) ==
            match Step(c, r, x, st, b)
            case None => None
            case Some((st', b')) => Step(c, r, y, st', b')
  {
    var cmds := [x, y];
    assert cmds[1..] == [y] && [y][1..] == [];
    var first := Step(c, r, x, st, b);
    if first.Some? {
      var (st', b') := first.value;
      var second := Step(c, r, y, st', b');
      assert Commands(c, r, [y], st', b') ==
             match second case None => None case Some((s2, b2)) => Commands(c, r, [y][1..], s2, b2);
    }
  }

  /** What either run does with the first block: r is older than q or not. */
  lemma ReadUsed(c: Config, st: State, q: nat, r: nat)
    requires c.strict == 1 && c.tick(|st.ran|) == 0 && st.rules.Keys == {""} && st.clock == 20
    requires st.files == map["q" := q, "r" := r, "s" := 15] && 0 < r
    ensures Step(c, "", USED, st, Block(0, false)).Some?
    ensures var st' := Step(c, "", USED, st, Block(0, false)).value.0;
      && st'.rules.Keys == {"", "q", "r"} && st'.clock == 20
      && st'.rules["q"] == Rule(q, true, false, true, false, NOATTRIBUTES)
      && (q <= r ==> st'.files == st.files && st'.ran == st.ran)
      && (q > r ==> st'.files == st.files["r" := 20] && st'.ran == st.ran + ["r"])
  {
    var (a, x) := Begin(c, "r", NOATTRIBUTES, st);
    BeginIs(c, "r", NOATTRIBUTES, st);
    TwoCommands(c, "r", Prev("q", None), Exec, a, x);
  }

  /** What either run does with the second block: q is older than s or not. */
  lemma ReadLate(c: Config, st: State, b: Block, q: nat)
    requires c.strict == 1 && c.tick(|st.ran|) == 0 && st.clock == 20
    requires st.rules.Keys == {"", "q", "r"} && st.rules["q"] == Rule(q, true, false, true, false, NOATTRIBUTES)
    requires "q" in st.files && st.files["q"] == q && 0 < q && "s" in st.files && st.files["s"] == 15
    ensures Step(c, "", LATE, st, b).Some?
    ensures var st' := Step(c, "", LATE, st, b).value.0;
      && (15 <= q ==> st'.files == st.files && st'.ran == st.ran)
      && (q < 15 ==> st'.files == st.files["q" := 20] && st'.ran == st.ran + ["q"])
  {
    var st1 := StartMake(c, st, "q", NOATTRIBUTES);
    var (a, x) := Open(st1, "q");
    TwoCommands(c, "q", Makp("s", NOATTRIBUTES), Exec, a, x);
  }

  /** A whole run over both blocks. */
  lemma ReadBoth(c: Config, files: map<string, nat>, q: nat)
    requires c.strict == 1 && c.tick(0) == c.tick(1) == 0 && files == map["q" := q, "r" := 10, "s" := 15] && 0 < q
    ensures Build(c, [USED, LATE], files, 20).Some?
    ensures var st := Build(c, [USED, LATE], files, 20).value;
      && (q <= 10 ==> st.files == files["q" := 20])
      && (15 <= q ==> st.ran == ["r"])
  {
    var b := Block(0, false);
    var st := Initial(files, 20);
    TwoCommands(c, "", USED, LATE, st, b);
    ReadUsed(c, st, q, 10);
    var (st1, b1) := Step(c, "", USED, st, b).value;
    ReadLate(c, st1, b1, q);
  }

  /**
   At strict level 1 the second run is not idle after a run that made q again:
   q is made again only after r was compared with it.
   */
  lemma UsedThenRemade(c: Config)
    requires c.strict == 1 && forall k :: c.tick(k) == 0
    ensures Quiet([USED, LATE]) && MadeTwice(c.strict, [USED, LATE])
    ensures var first := Build(c, [USED, LATE], map["q" := 5, "r" := 10, "s" := 15], 20);
      && first.Some?
      && var second := Build(c, [USED, LATE], first.value.files, 20);
      second.Some? && second.value.ran == ["r"]
  {
    QuietUsed();
    LateMakesTwice();
    var files := map["q" := 5, "r" := 10, "s" := 15];
    ReadBoth(c, files, 5);
    assert files["q" := 20] == map["q" := 20, "r" := 10, "s" := 15];
    ReadBoth(c, files["q" := 20], 20);
  }

  lemma LateMakesTwice()
    ensures MadeTwice(1, [USED, LATE])
  {
    var s := Reads(1, USED.body, MakeSeen("r", Seen({""}, {}, false)));
    assert USED.body[1..] == [Exec] && [Exec][1..] == [];
    assert "q" in ReadsOne(1, Prev("q", None), MakeSeen("r", Seen({""}, {}, false))).made;
    assert "q" in s.made;
    var s' := ReadsOne(1, USED, Seen({""}, {}, false));
    assert MakeSeen("q", s').twice;
    TwiceGrows(1, LATE.body, MakeSeen("q", s'));
    assert [USED, LATE][1..] == [LATE] && [LATE][1..] == [];
    var all := [USED, LATE];
    assert Reads(1, all, Seen({""}, {}, false)) == Reads(1, [LATE], s');
    assert Reads(1, [LATE], s') == Reads(1, [], ReadsOne(1, LATE, s'));
  }

  lemma QuietUsed()
    ensures Quiet([USED, LATE])
  {
    assert Quiet(USED.body) && Quiet(LATE.body);
    assert QuietOne(USED) && QuietOne(LATE);
  }
}
