/**
 mamake: bringing targets up to date from time stamps.

 A Mamfile is taken as its nest of commands.  The functions below are the meaning of
 the commands; the class Mamake does the same on its fields.
 */
module Rebuild {
  import opened Options

  datatype Attributes = Attributes(virtual: bool, ignore: bool, dontcare: bool)

  datatype Command =
    | Make(target: string, attributes: Attributes, body: seq<Command>)  // make ... done
    | Makp(target: string, attributes: Attributes)
    | Prev(target: string, operand: Option<Attributes>)
    | Exec

  datatype Rule = Rule(time: nat, exist: bool, generated: bool, made: bool, making: bool, attributes: Attributes)

  const NOATTRIBUTES := Attributes(false, false, false)

  const FRESH := Rule(0, false, false, false, false, NOATTRIBUTES)

  /** The rule table, the time stamps of the files, the clock, and the actions run so far. */
  datatype State = State(rules: map<string, Rule>, files: map<string, nat>, clock: nat, ran: seq<string>)

  /** What a block is in the middle of: its latest time stamp, and whether it has a shell action. */
  datatype Block = Block(modtime: nat, action: bool)

  /** strict is the strict level; tick(k) is how far the clock moves while the k-th action runs. */
  datatype Config = Config(strict: nat, tick: nat -> nat)

  function Max(a: nat, b: nat): nat {
    if a < b then b else a
  }

  function Union(a: Attributes, b: Attributes): Attributes {
    Attributes(a.virtual || b.virtual, a.ignore || b.ignore, a.dontcare || b.dontcare)
  }

  /** Whether a new rule is one of the obsolete licence files. */
  predicate ObsoleteLicense(name: string) {
    |name| > 4 && name[0] == '/' && name[|name| - 4..] == ".lic"
  }

  function Lookup(c: Config, st: State, name: string): Rule {
    if name in st.rules then st.rules[name]
    else if c.strict == 0 && ObsoleteLicense(name) then FRESH.(attributes := FRESH.attributes.(dontcare := true))
    else FRESH
  }

  function Bind(st: State, name: string, q: Rule): Rule {
    if name in st.files then q.(time := st.files[name], exist := true) else q
  }

  function Propagate(q: Rule, modtime: nat): nat {
    if !q.attributes.ignore then Max(modtime, q.time) else modtime
  }

  predicate Missing(q: Rule) {
    !q.attributes.dontcare && !q.exist && !q.generated && !q.attributes.virtual
  }

  /** Run the action of name: it updates its file, unless the rule is virtual. */
  function Run(c: Config, st: State, name: string): State
    requires name in st.rules
  {
    var q := st.rules[name];
    var now := st.clock + c.tick(|st.ran|);
    var files := if q.attributes.virtual then st.files else st.files[name := now];
    var q' := if name in files then q.(time := files[name], exist := true) else q.(time := now);
    st.(rules := st.rules[name := q'], files := files, clock := now, ran := st.ran + [name])
  }

  /** None is a fatal error.  Rules are never removed. */
  function Commands(c: Config, r: string, cmds: seq<Command>, st: State, b: Block): (res: Option<(State, Block)>)
    requires r in st.rules
    ensures res.Some? ==> st.rules.Keys <= res.value.0.rules.Keys
    decreases cmds, 0
  {
    if cmds == [] then Some((st, b))
    else
      match Step(c, r, cmds[0], st, b)
      case None => None
      case Some((st', b')) => Commands(c, r, cmds[1..], st', b')
  }

  function Step(c: Config, r: string, cmd: Command, st: State, b: Block): (res: Option<(State, Block)>)
    requires r in st.rules
    ensures res.Some? ==> st.rules.Keys <= res.value.0.rules.Keys
    decreases cmd, 0
  {
    match cmd
    case Exec =>
      Some((st.(rules := st.rules[r := st.rules[r].(generated := true)]), b.(action := true)))
    case Make(name, attrs, body) =>
      var q := Lookup(c, st, name);
      if q.made && c.strict >= 3 then None
      else if q.making then None
      else
        (match MakeRule(c, name, body, StartMake(c, st, name, attrs))
         case None => None
         case Some(st') => Some((st', b.(modtime := Propagate(st'.rules[name], b.modtime)))))
    case Makp(name, attrs) =>
      if name !in st.rules then Declare(c, name, attrs, st, b)
      else if st.rules[name].made then None
      else Some((st, b))
    case Prev(name, operand) =>
      if name !in st.rules then
        if c.strict == 0 then Some((st.(rules := st.rules[name := Lookup(c, st, name)]), b))
        else if c.strict < 4 then Declare(c, name, if operand.Some? then operand.value else NOATTRIBUTES, st, b)
        else None
      else if operand.Some? then None
      else if st.rules[name].making then (if c.strict < 3 then Some((st, b)) else None)
      else Some((st, b.(modtime := Propagate(st.rules[name], b.modtime))))
  }

  function StartMake(c: Config, st: State, name: string, attrs: Attributes): State {
    var q := Lookup(c, st, name);
    st.(rules := st.rules[name := q.(attributes := Union(q.attributes, attrs))])
  }

  /** A simple source file prerequisite as it is declared. */
  function Declared(c: Config, st: State, name: string, attrs: Attributes): Rule {
    var q0 := Lookup(c, st, name);
    var q := q0.(attributes := Union(q0.attributes, attrs));
    (if q.attributes.virtual then q else Bind(st, name, q)).(made := true)
  }

  function Declare(c: Config, name: string, attrs: Attributes, st: State, b: Block): (res: Option<(State, Block)>)
    ensures res.Some? ==> st.rules.Keys <= res.value.0.rules.Keys
  {
    var q := Declared(c, st, name, attrs);
    if !q.attributes.virtual && !q.attributes.dontcare && !q.exist then None
    else Some((st.(rules := st.rules[name := q]),
               if q.attributes.virtual then b else b.(modtime := Propagate(q, b.modtime))))
  }

  /** From make to done. */
  function MakeRule(c: Config, name: string, body: seq<Command>, st: State): (res: Option<State>)
    requires name in st.rules
    ensures res.Some? ==> st.rules.Keys <= res.value.rules.Keys
    decreases body, 1
  {
    var (st0, b0) := Open(st, name);
    match Commands(c, name, body, st0, b0)
    case None => None
    case Some((st1, b1)) => Done(c, name, st1, b1)
  }

  function Open(st: State, name: string): (State, Block)
    requires name in st.rules
  {
    var q0 := st.rules[name].(making := true);
    var q := if q0.attributes.virtual then q0 else Bind(st, name, q0);
    (st.(rules := st.rules[name := q]), Block(if q.attributes.virtual then 0 else q.time, false))
  }

  /** The action runs if the target is older than its prerequisites, or nothing has a time. */
  predicate Outdated(q: Rule, b: Block) {
    b.action && (q.time < b.modtime || (q.time == 0 && b.modtime == 0))
  }

  function Done(c: Config, name: string, st: State, b: Block): (res: Option<State>)
    requires name in st.rules
    ensures res.Some? ==> st.rules.Keys <= res.value.rules.Keys
  {
    var outdated := Outdated(st.rules[name], b);
    var st1 := if outdated then Run(c, st, name) else st;
    var q := st1.rules[name];
    var modtime := if outdated then Propagate(q, b.modtime) else b.modtime;
    if Missing(q) then None
    else Some(st1.(rules := st1.rules[name := q.(made := true, making := false, time := modtime)]))
  }

  function Initial(files: map<string, nat>, clock: nat): State {
    State(map["" := FRESH.(making := true)], files, clock, [])
  }

  /** A whole run over a Mamfile: its commands belong to the rule with the empty name. */
  function Build(c: Config, cmds: seq<Command>, files: map<string, nat>, clock: nat): (res: Option<State>) {
    match Commands(c, "", cmds, Initial(files, clock), Block(0, false))
    case None => None
    case Some((st, b)) => Some(st)
  }

  /** The program state of mamake. */
  class Mamake {
    const c: Config
    var rules: map<string, Rule>
    var files: map<string, nat>
    var clock: nat
    var ran: seq<string>

    function St(): State
      reads this
    {
      State(rules, files, clock, ran)
    }

    constructor (c: Config, files: map<string, nat>, clock: nat)
      ensures this.c == c && St() == Initial(files, clock)
    {
      this.c, this.files, this.clock := c, files, clock;
      rules, ran := map["" := FRESH.(making := true)], [];
    }

    /** Read the commands of a block of rule r; ok is false after a fatal error. */
    method ReadCommands(r: string, cmds: seq<Command>, modtime0: nat, action0: bool)
      returns (ok: bool, modtime: nat, action: bool)
      requires r in rules
      modifies this
      ensures match Commands(c, r, cmds, old(St()), Block(modtime0, action0))
              case None => !ok
              case Some((st, b)) => ok && St() == st && Block(modtime, action) == b
      decreases cmds, 0
    {
      ok, modtime, action := true, modtime0, action0;
      ghost var whole := Commands(c, r, cmds, St(), Block(modtime0, action0));
      var i := 0;
      while i < |cmds|
        invariant 0 <= i <= |cmds| && r in rules
        invariant Commands(c, r, cmds[i..], St(), Block(modtime, action)) == whole
      {
        assert cmds[i..][0] == cmds[i] && cmds[i..][1..] == cmds[i + 1..];
        ok, modtime, action := ReadCommand(r, cmds[i], modtime, action);
        if !ok {
          return;
        }
        i := i + 1;
      }
    }

    method ReadCommand(r: string, cmd: Command, modtime0: nat, action0: bool)
      returns (ok: bool, modtime: nat, action: bool)
      requires r in rules
      modifies this
      ensures match Step(c, r, cmd, old(St()), Block(modtime0, action0))
              case None => !ok
              case Some((st, b)) => ok && St() == st && Block(modtime, action) == b
      decreases cmd, 0
    {
      ok, modtime, action := true, modtime0, action0;
      match cmd
      case Exec =>
        rules := rules[r := rules[r].(generated := true)];
        action := true;
      case Make(name, attrs, body) =>
        var q := Lookup(c, St(), name);
        if q.made && c.strict >= 3 {
          return false, modtime, action;
        }
        if q.making {
          return false, modtime, action;
        }
        rules := rules[name := q.(attributes := Union(q.attributes, attrs))];
        ok := MakeTarget(name, body);
        if ok {
          modtime := Propagate(rules[name], modtime);
        }
      case Makp(name, attrs) =>
        if name !in rules {
          ok, modtime := DeclareSource(name, attrs, modtime, action);
        } else if rules[name].made {
          ok := false;
        }
      case Prev(name, operand) =>
        if name !in rules {
          if c.strict == 0 {
            rules := rules[name := Lookup(c, St(), name)];
          } else if c.strict < 4 {
            ok, modtime := DeclareSource(name, if operand.Some? then operand.value else NOATTRIBUTES, modtime, action);
          } else {
            ok := false;
          }
        } else if operand.Some? {
          ok := false;
        } else if rules[name].making {
          ok := c.strict < 3;
        } else {
          modtime := Propagate(rules[name], modtime);
        }
    }

    method DeclareSource(name: string, attrs: Attributes, modtime0: nat, ghost action: bool) returns (ok: bool, modtime: nat)
      modifies this`rules
      ensures match Declare(c, name, attrs, old(St()), Block(modtime0, action))
              case None => !ok
              case Some((st, b)) => ok && St() == st && Block(modtime, action) == b
    {
      modtime := modtime0;
      var q := Lookup(c, St(), name);
      q := q.(attributes := Union(q.attributes, attrs));
      if !q.attributes.virtual {
        q := Bind(St(), name, q);
        if !q.attributes.dontcare && !q.exist {
          return false, modtime;
        }
        modtime := Propagate(q, modtime);
      }
      rules := rules[name := q.(made := true)];
      ok := true;
    }

    /** From make to done. */
    method MakeTarget(name: string, body: seq<Command>) returns (ok: bool)
      requires name in rules
      modifies this
      ensures match MakeRule(c, name, body, old(St()))
              case None => !ok
              case Some(st) => ok && St() == st
      decreases body, 1
    {
      var q := rules[name].(making := true);
      var modtime, action := 0, false;
      if !q.attributes.virtual {
        q := Bind(St(), name, q);
        modtime := q.time;
      }
      rules := rules[name := q];
      ok, modtime, action := ReadCommands(name, body, modtime, action);
      if ok {
        ok := Finish(name, modtime, action);
      }
    }

    method Finish(name: string, modtime0: nat, action: bool) returns (ok: bool)
      requires name in rules
      modifies this
      ensures match Done(c, name, old(St()), Block(modtime0, action))
              case None => !ok
              case Some(st) => ok && St() == st
    {
      var modtime := modtime0;
      if action && (rules[name].time < modtime || (rules[name].time == 0 && modtime == 0)) {
        RunAction(name);
        modtime := Propagate(rules[name], modtime);
      }
      var q := rules[name];
      if Missing(q) {
        return false;
      }
      rules := rules[name := q.(made := true, making := false, time := modtime)];
      ok := true;
    }

    /** The shell action: it takes some time and sets the time stamp of its file. */
    method RunAction(name: string)
      requires name in rules
      modifies this
      ensures St() == Run(c, old(St()), name)
    {
      var q := rules[name];
      clock := clock + c.tick(|ran|);
      if !q.attributes.virtual {
        files := files[name := clock];
      }
      if name in files {
        q := q.(time := files[name], exist := true);
      } else {
        q := q.(time := clock);
      }
      rules := rules[name := q];
      ran := ran + [name];
    }
  }
}
