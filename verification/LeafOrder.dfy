/**
 mamake -r: the leaf directories are run in a topological order of the library
 dependencies found in their Mamfiles.
 */
module LeafOrder {

  class Rule {
    const name: string
    var prereqs: seq<Rule>  // a list the source prepends to
    var leaf: Rule?         // the rule of the directory's basename, if this is a leaf directory
    var made: bool
    var active: bool

    constructor (name: string)
      ensures this.name == name && prereqs == [] && leaf == null && !made && !active
    {
      this.name, prereqs, leaf, made, active := name, [], null, false, false;
    }
  }

  /** The rules at one moment: the leaf prerequisites of each rule, and the alias of each leaf rule. */
  datatype Graph = Graph(prereqs: map<Rule, set<Rule>>, alias: map<Rule, Rule>)

  ghost function GraphOf(U: set<Rule>): (g: Graph)
    reads U`prereqs, U`leaf
    ensures g.prereqs.Keys == U
  {
    Graph(map x | x in U :: (set p | p in x.prereqs && p in U && p.leaf != null),
          map x | x in U && x.leaf != null :: x.leaf)
  }

  /** Every rule a rule of U refers to is in U. */
  ghost predicate Closed(U: set<Rule>)
    reads U`prereqs, U`leaf
  {
    forall x :: x in U ==> (forall p :: p in x.prereqs ==> p in U) && (x.leaf != null ==> x.leaf in U)
  }

  ghost predicate IsPath(g: Graph, older path: seq<Rule>) {
    && path != []
    && (forall i :: 0 <= i < |path| ==> path[i] in g.prereqs)
    && (forall i :: 0 <= i < |path| - 1 ==> path[i + 1] in g.prereqs[path[i]])
  }

  /** y is x or a direct or indirect leaf prerequisite of x. */
  ghost predicate Reaches(g: Graph, x: Rule, y: Rule) {
    exists path :: IsPath(g, path) && path[0] == x && path[|path| - 1] == y
  }

  lemma ReachesSelf(g: Graph, x: Rule)
    requires x in g.prereqs
    ensures Reaches(g, x, x)
  {
    assert IsPath(g, [x]);
  }

  lemma ReachesStep(g: Graph, x: Rule, y: Rule, z: Rule)
    requires Reaches(g, x, y) && y in g.prereqs && z in g.prereqs[y] && z in g.prereqs
    ensures Reaches(g, x, z)
  {
    var path :| IsPath(g, path) && path[0] == x && path[|path| - 1] == y;
    assert IsPath(g, path + [z]);
  }

  lemma ReachesTransitive(g: Graph, x: Rule, y: Rule, z: Rule)
    requires Reaches(g, x, y) && Reaches(g, y, z)
    ensures Reaches(g, x, z)
  {
    var p :| IsPath(g, p) && p[0] == x && p[|p| - 1] == y;
    var q :| IsPath(g, q) && q[0] == y && q[|q| - 1] == z;
    var pq := p + q[1..];
    assert IsPath(g, pq);
  }

  ghost function Elems(s: seq<Rule>): set<Rule> {
    set x | x in s
  }

  ghost predicate NoDuplicates(s: seq<Rule>) {
    forall i, j :: 0 <= i < j < |s| ==> s[i] != s[j]
  }

  /** x is the alias of another leaf y: marking y made also marks x. */
  ghost predicate Shadows(g: Graph, y: Rule, x: Rule) {
    y in g.alias && y != x && g.alias[y] == x
  }

  ghost predicate Shadowed(g: Graph, x: Rule, s: set<Rule>) {
    exists y :: y in s && Shadows(g, y, x)
  }

  /** Prerequisite p of the k-th run rule ran before it, unless they depend on each other or p shares a basename. */
  ghost predicate RanBefore(g: Graph, log: seq<Rule>, k: nat, p: Rule, s: set<Rule>)
    requires k < |log|
  {
    p in log[..k] || Reaches(g, p, log[k]) || Shadowed(g, p, s)
  }

  ghost predicate Ordered(g: Graph, log: seq<Rule>, s: set<Rule>) {
    forall k, p :: 0 <= k < |log| && log[k] in g.prereqs && p in g.prereqs[log[k]] ==> RanBefore(g, log, k, p, s)
  }

  /** A leaf begun after one that shadows it has that one among its prerequisites. */
  ghost predicate ShadowedFirst(g: Graph, log: seq<Rule>, open: set<Rule>) {
    && (forall j, k :: 0 <= j < k < |log| && Shadows(g, log[j], log[k]) ==> Reaches(g, log[k], log[j]))
    && (forall x, y :: x in open && y in Elems(log) + open && Shadows(g, y, x) ==> Reaches(g, x, y))
  }

  /** The log so far, while the rules of open are being updated. */
  ghost predicate LogValid(g: Graph, log: seq<Rule>, open: set<Rule>) {
    && NoDuplicates(log) && Elems(log) !! open
    && (forall x :: x in Elems(log) + open ==> x in g.prereqs && x in g.alias)
    && Ordered(g, log, Elems(log) + open) && ShadowedFirst(g, log, open)
  }

  /** A leaf marked made has run, is being updated, or is shadowed by such a leaf. */
  ghost predicate MadeAccounted(g: Graph, made: set<Rule>, log: seq<Rule>, open: set<Rule>) {
    && Elems(log) + open <= made
    && (forall x :: x in made && x in g.alias ==> x in log || x in open || Shadowed(g, x, Elems(log) + open))
    && (forall x, p :: x in log && x in g.prereqs && p in g.prereqs[x] ==> p in made)
    && (forall y :: y in Elems(log) + open && y in g.alias ==> g.alias[y] in made)
  }

  ghost function MadeOf(U: set<Rule>): set<Rule>
    reads U`made
  {
    set x | x in U && x.made
  }

  lemma ShadowedGrows(g: Graph, x: Rule, s: set<Rule>, s': set<Rule>)
    requires s <= s' && Shadowed(g, x, s)
    ensures Shadowed(g, x, s')
  {
  }

  lemma OrderedGrows(g: Graph, log: seq<Rule>, s: set<Rule>, s': set<Rule>)
    requires s <= s' && Ordered(g, log, s)
    ensures Ordered(g, log, s')
  {
    forall k, p | 0 <= k < |log| && log[k] in g.prereqs && p in g.prereqs[log[k]]
      ensures RanBefore(g, log, k, p, s')
    {
      assert RanBefore(g, log, k, p, s);
    }
  }

  /** Marking r and its alias made, and starting on the prerequisites of r. */
  lemma Opened(g: Graph, log: seq<Rule>, open: set<Rule>, made: set<Rule>, made': set<Rule>, r: Rule)
    requires LogValid(g, log, open) && MadeAccounted(g, made, log, open)
    requires r !in made && r in g.prereqs && r in g.alias && made' == made + {r, g.alias[r]}
    requires forall o :: o in open ==> Reaches(g, o, r)
    ensures LogValid(g, log, open + {r}) && MadeAccounted(g, made', log, open + {r})
  {
    OrderedGrows(g, log, Elems(log) + open, Elems(log) + (open + {r}));
    forall x | x in made' && x in g.alias
      ensures x in log || x in open + {r} || Shadowed(g, x, Elems(log) + (open + {r}))
    {
      if x in made && Shadowed(g, x, Elems(log) + open) {
        ShadowedGrows(g, x, Elems(log) + open, Elems(log) + (open + {r}));
      } else if x !in made && x != r {
        assert r in Elems(log) + (open + {r}) && g.alias[r] == x;
      }
    }
  }

  /** Running r after its prerequisites. */
  lemma Closing(g: Graph, log: seq<Rule>, open: set<Rule>, made: set<Rule>, r: Rule)
    requires LogValid(g, log, open + {r}) && MadeAccounted(g, made, log, open + {r})
    requires r !in open && (forall o :: o in open ==> Reaches(g, o, r))
    requires forall p :: p in g.prereqs[r] ==> p in made && p in g.alias
    ensures LogValid(g, log + [r], open) && MadeAccounted(g, made, log + [r], open)
  {
    var log', s := log + [r], Elems(log) + (open + {r});
    assert Elems(log') == Elems(log) + {r};
    assert Elems(log') + open == s;
    ReachesSelf(g, r);
    forall k, p | 0 <= k < |log'| && log'[k] in g.prereqs && p in g.prereqs[log'[k]]
      ensures RanBefore(g, log', k, p, s)
    {
      if k < |log| {
        assert RanBefore(g, log, k, p, s);
        assert log'[..k] == log[..k];
      } else {
        assert log'[..k] == log;
        assert p in log || p in open + {r} || Shadowed(g, p, s);
      }
    }
  }

  lemma NewReaches(g: Graph, r: Rule, x: Rule, y: Rule)
    requires r in g.prereqs && x in g.prereqs[r] && x in g.prereqs && Reaches(g, x, y)
    ensures Reaches(g, r, y)
  {
    ReachesSelf(g, r);
    ReachesStep(g, r, r, x);
    ReachesTransitive(g, r, x, y);
  }

  /** What was logged since is a direct or indirect prerequisite of r that was not made before. */
  ghost predicate NewFrom(g: Graph, r: Rule, log: seq<Rule>, log': seq<Rule>, made: set<Rule>) {
    forall x :: x in Elems(log') - Elems(log) ==> Reaches(g, r, x) && x !in made
  }

  lemma NewFromTwice(g: Graph, r: Rule, log: seq<Rule>, log1: seq<Rule>, log2: seq<Rule>, made: set<Rule>, made1: set<Rule>)
    requires NewFrom(g, r, log, log1, made) && NewFrom(g, r, log1, log2, made1) && made <= made1
    ensures NewFrom(g, r, log, log2, made)
  {
    forall x | x in Elems(log2) - Elems(log)
      ensures Reaches(g, r, x) && x !in made
    {
      assert x in Elems(log1) - Elems(log) || x in Elems(log2) - Elems(log1);
    }
  }

  /** The leaf rule a walk over item descends into, if any. */
  ghost function Selected(item: Rule, everything: bool, leafs: map<string, Rule>): Rule?
    reads item`leaf, item`active
  {
    if everything then (if item.leaf != null then item else null)
    else if item.active && item.name in leafs then leafs[item.name]
    else null
  }

  /** x is a direct or indirect prerequisite of a selected leaf. */
  ghost predicate Wished(g: Graph, x: Rule, U: set<Rule>, everything: bool, leafs: map<string, Rule>)
    reads U`leaf, U`active
  {
    exists r :: r in U && Selected(r, everything, leafs) != null && Reaches(g, Selected(r, everything, leafs), x)
  }

  /** Whatever ran is an initializer or wished for. */
  ghost predicate AllWished(g: Graph, log: seq<Rule>, U: set<Rule>, everything: bool, leafs: map<string, Rule>)
    reads U`leaf, U`active
  {
    forall x :: x in Elems(log) ==> Initializer(x.name) || Wished(g, x, U, everything, leafs)
  }

  ghost predicate RootsMade(items: seq<Rule>, everything: bool, leafs: map<string, Rule>, made: set<Rule>)
    reads items`leaf, items`active
  {
    forall r :: r in Elems(items) && Selected(r, everything, leafs) != null ==> Selected(r, everything, leafs) in made
  }

  lemma RootsNone(everything: bool, leafs: map<string, Rule>, made: set<Rule>)
    ensures RootsMade([], everything, leafs, made)
  {
  }

  lemma RootsMore(items: seq<Rule>, item: Rule, everything: bool, leafs: map<string, Rule>, made: set<Rule>, made': set<Rule>)
    requires RootsMade(items, everything, leafs, made) && made <= made'
    requires Selected(item, everything, leafs) != null ==> Selected(item, everything, leafs) in made'
    ensures RootsMade(items + [item], everything, leafs, made')
  {
  }

  lemma WishedMore(g: Graph, log: seq<Rule>, log': seq<Rule>, item: Rule, U: set<Rule>, everything: bool,
                   leafs: map<string, Rule>, made: set<Rule>)
    requires item in U && AllWished(g, log, U, everything, leafs)
    requires var root := Selected(item, everything, leafs);
      if root == null then log' == log else NewFrom(g, root, log, log', made)
    ensures AllWished(g, log', U, everything, leafs)
  {
    forall x | x in Elems(log')
      ensures Initializer(x.name) || Wished(g, x, U, everything, leafs)
    {
      assert x in Elems(log) || x in Elems(log') - Elems(log);
    }
  }

  /** What was logged since was not made before. */
  ghost predicate NewSince(log: seq<Rule>, log': seq<Rule>, made: set<Rule>) {
    forall x :: x in Elems(log') - Elems(log) ==> x !in made
  }

  lemma NewMore(g: Graph, item: Rule, everything: bool, leafs: map<string, Rule>, before: seq<Rule>, log: seq<Rule>,
                log': seq<Rule>, made0: set<Rule>, made: set<Rule>)
    requires NewSince(before, log, made0) && made0 <= made
    requires var root := Selected(item, everything, leafs); if root == null then log' == log else NewFrom(g, root, log, log', made)
    ensures NewSince(before, log', made0)
  {
    forall x | x in Elems(log') - Elems(before)
      ensures x !in made0
    {
      assert x in Elems(log) - Elems(before) || x in Elems(log') - Elems(log);
    }
  }

  /** Initializers come before all other leaves. */
  ghost predicate InitializersFirst(log: seq<Rule>) {
    forall i, j :: 0 <= i < j < |log| && Initializer(log[j].name) ==> Initializer(log[i].name)
  }

  /** What the scan runs are initializers; as they are all made then, the descent runs no more of them. */
  lemma ScanRunsInitializers(g: Graph, made: set<Rule>, log: seq<Rule>, log': seq<Rule>)
    requires Scanning(g, made, log) && LogValid(g, log', {}) && log <= log' && NewSince(log, log', made)
    requires forall x :: x in g.alias && Initializer(x.name) ==> x in made
    ensures InitializersFirst(log')
  {
    forall i, j | 0 <= i < j < |log'| && Initializer(log'[j].name)
      ensures Initializer(log'[i].name)
    {
      OldOrNew(log, log', i);
      OldOrNew(log, log', j);
    }
  }

  lemma OldOrNew(log: seq<Rule>, log': seq<Rule>, k: nat)
    requires log <= log' && NoDuplicates(log') && k < |log'|
    ensures log'[k] in Elems(log')
    ensures if k < |log| then log'[k] in Elems(log) else log'[k] in Elems(log') - Elems(log)
  {
    if k < |log| {
      assert log'[k] == log[k];
    } else {
      NotOld(log, log', k);
    }
  }

  lemma NotOld(log: seq<Rule>, log': seq<Rule>, j: nat)
    requires log <= log' && NoDuplicates(log') && |log| <= j < |log'|
    ensures log'[j] !in log
  {
    forall i | 0 <= i < |log|
      ensures log[i] != log'[j]
    {
      assert log'[i] == log[i];
    }
  }

  ghost predicate RunOrShadowed(g: Graph, log: seq<Rule>, x: Rule) {
    x in log || Shadowed(g, x, Elems(log))
  }

  ghost predicate DependencyGraph(g: Graph, U: set<Rule>, leafs: map<string, Rule>, libs: map<Rule, seq<string>>)
    reads U`leaf
  {
    g.prereqs.Keys == U && forall r :: r in U ==> g.prereqs[r] == Wanted(r, r.leaf != null, leafs, libs)
  }

  /** What the scan did for the rules of s. */
  ghost predicate Scanned(s: set<Rule>, g: Graph, made: set<Rule>, leafs: map<string, Rule>, libs: map<Rule, seq<string>>)
    reads s`leaf
  {
    forall r :: r in s ==>
      && r in g.prereqs && g.prereqs[r] == Wanted(r, r.leaf != null, leafs, libs)
      && (r.leaf != null && Initializer(r.name) ==> r in made)
  }

  lemma NothingScanned(g: Graph, leafs: map<string, Rule>, libs: map<Rule, seq<string>>)
    ensures Scanning(g, {}, []) && Scanned({}, g, {}, leafs, libs)
  {
  }

  lemma ScannedMore(s: set<Rule>, r: Rule, g: Graph, g': Graph, made: set<Rule>, made': set<Rule>,
                    leafs: map<string, Rule>, libs: map<Rule, seq<string>>)
    requires Scanned(s, g, made, leafs, libs) && r !in s && made <= made'
    requires g' == g.(prereqs := g.prereqs[r := Wanted(r, r.leaf != null, leafs, libs)])
    requires r.leaf != null && Initializer(r.name) ==> r in made'
    ensures Scanned(s + {r}, g', made', leafs, libs)
  {
  }

  lemma ScannedAll(U: set<Rule>, leafs: map<string, Rule>, libs: map<Rule, seq<string>>)
    requires Closed(U) && Scanned(U, GraphOf(U), MadeOf(U), leafs, libs)
    ensures DependencyGraph(GraphOf(U), U, leafs, libs)
    ensures forall r :: r in U && r.leaf != null && Initializer(r.name) ==> r in MadeOf(U)
  {
  }

  lemma PrefixStep(s: seq<Rule>, k: nat)
    requires k < |s|
    ensures s[k] in Elems(s) && s[..k + 1] == s[..k] + [s[k]]
  {
  }

  lemma PrefixElems(s: seq<Rule>, k: nat)
    requires k < |s| && NoDuplicates(s)
    ensures Elems(s[..k + 1]) == Elems(s[..k]) + {s[k]} && s[k] !in Elems(s[..k]) && s[k] in Elems(s)
  {
    assert s[..k + 1] == s[..k] + [s[k]];
  }

  lemma MadeIsRun(g: Graph, made: set<Rule>, log: seq<Rule>)
    requires MadeAccounted(g, made, log, {}) && LogValid(g, log, {})
    ensures forall x :: x in made && x in g.alias ==> RunOrShadowed(g, log, x)
  {
    assert Elems(log) + {} == Elems(log);
  }

  /** Prepend p onto the prerequisites of r unless it is there. */
  method Cons(r: Rule, p: Rule)
    modifies r`prereqs
    ensures r.prereqs == if p in old(r.prereqs) then old(r.prereqs) else [p] + old(r.prereqs)
  {
    var list := r.prereqs;
    var i := 0;
    while i < |list| && list[i] != p
      invariant 0 <= i <= |list| && p !in list[..i]
    {
      i := i + 1;
    }
    if i == |list| {
      assert list[..i] == list;
      r.prereqs := [p] + list;
    }
  }

  function Basename(s: string): string {
    if s == [] then []
    else if '/' in s[1..] then Basename(s[1..])
    else if s[0] == '/' then s[1..]
    else s
  }

  /** Names of leaf directories that are always made, and made first. */
  predicate Initializer(name: string) {
    "INIT" <= Basename(name)
  }

  /** The basename is what follows the last slash. */
  lemma {:induction false} BasenameMeans(dir: string, base: string)
    requires '/' !in base && (dir == "" || dir[|dir| - 1] == '/')
    ensures Basename(dir + base) == base
  {
    var s := dir + base;
    if dir == "" {
      assert s == base;
    } else {
      assert s[1..] == dir[1..] + base;
      if |dir| > 1 {
        assert s[1..][|dir| - 2] == '/';
        BasenameMeans(dir[1..], base);
      } else {
        assert s[1..] == base;
      }
    }
  }

  /** An initializer is a leaf directory whose last part begins with INIT. */
  lemma InitializerMeans(dir: string, base: string)
    requires '/' !in base && (dir == "" || dir[|dir| - 1] == '/')
    ensures Initializer(dir + base) <==> |base| >= 4 && base[0] == 'I' && base[1] == 'N' && base[2] == 'I' && base[3] == 'T'
  {
    BasenameMeans(dir, base);
  }

  /** The recursion leaf dictionary maps names to leaf rules. */
  ghost predicate LeafDictionary(U: set<Rule>, leafs: map<string, Rule>)
    reads U`leaf
  {
    forall t :: t in leafs ==> leafs[t] in U && leafs[t].leaf != null
  }

  ghost function Named(names: seq<string>, leafs: map<string, Rule>, r: Rule): set<Rule> {
    set t | t in names && t in leafs && leafs[t] != r :: leafs[t]
  }

  lemma NamedStep(names: seq<string>, i: nat, leafs: map<string, Rule>, r: Rule)
    requires i < |names|
    ensures var t := names[i];
      Named(names[..i + 1], leafs, r) ==
      Named(names[..i], leafs, r) + (if t in leafs && leafs[t] != r then {leafs[t]} else {})
  {
    assert names[..i + 1] == names[..i] + [names[i]];
  }

  /** The leaf prerequisites of a rule: the leaf directories its Mamfile binds, itself excluded. */
  ghost function Wanted(r: Rule, isLeaf: bool, leafs: map<string, Rule>, libs: map<Rule, seq<string>>): set<Rule> {
    if isLeaf && !Initializer(r.name) && r in libs then Named(libs[r], leafs, r) else {}
  }

  /** During the scan only initializers have run. */
  ghost predicate Scanning(g: Graph, made: set<Rule>, log: seq<Rule>) {
    && NoDuplicates(log)
    && (forall x :: x in Elems(log) ==> x in g.prereqs && x in g.alias && Initializer(x.name) && g.prereqs[x] == {})
    && Elems(log) <= made
    && (forall x :: x in made && x in g.alias ==> x in log || Shadowed(g, x, Elems(log)))
    && (forall j, k :: 0 <= j < k < |log| ==> !Shadows(g, log[j], log[k]))
    && (forall y :: y in Elems(log) && y in g.alias ==> g.alias[y] in made)
  }

  lemma ScanningLog(g: Graph, made: set<Rule>, log: seq<Rule>)
    requires Scanning(g, made, log)
    ensures LogValid(g, log, {}) && MadeAccounted(g, made, log, {})
  {
    assert Elems(log) + {} == Elems(log);
  }

  lemma ScanningWished(g: Graph, made: set<Rule>, log: seq<Rule>, U: set<Rule>, everything: bool, leafs: map<string, Rule>)
    requires Scanning(g, made, log)
    ensures AllWished(g, log, U, everything, leafs)
  {
  }

  lemma ScanningOther(g: Graph, g': Graph, made: set<Rule>, log: seq<Rule>, r: Rule)
    requires Scanning(g, made, log) && !Initializer(r.name)
    requires r in g.prereqs && g'.alias == g.alias && g'.prereqs.Keys == g.prereqs.Keys
    requires forall x :: x in g.prereqs && x != r ==> g'.prereqs[x] == g.prereqs[x]
    ensures Scanning(g', made, log)
  {
    forall x | x in made && x in g'.alias && x !in log
      ensures Shadowed(g', x, Elems(log))
    {
      assert Shadowed(g, x, Elems(log));
    }
  }

  lemma FirstStep(g: Graph, path: seq<Rule>)
    requires IsPath(g, path)
    ensures |path| > 1 ==> path[1] in g.prereqs[path[0]]
  {
  }

  lemma ReachesNothingElse(g: Graph, r: Rule, x: Rule)
    requires r in g.prereqs && g.prereqs[r] == {} && Reaches(g, r, x)
    ensures x == r
  {
    var path :| IsPath(g, path) && path[0] == r && path[|path| - 1] == x;
    FirstStep(g, path);
  }

  /** Updating an initializer during the scan runs it alone. */
  lemma InitializerAlone(g: Graph, log0: seq<Rule>, log: seq<Rule>, r: Rule, made0: set<Rule>, made: set<Rule>)
    requires Scanning(g, made0, log0) && LogValid(g, log, {}) && MadeAccounted(g, made, log, {})
    requires NewFrom(g, r, log0, log, made0)
    requires r in g.prereqs && r in g.alias && Initializer(r.name) && g.prereqs[r] == {}
    ensures Scanning(g, made, log)
  {
    forall x | x in Elems(log)
      ensures x in g.prereqs && x in g.alias && Initializer(x.name) && g.prereqs[x] == {}
    {
      if x !in Elems(log0) {
        assert x in Elems(log) - Elems(log0);
        ReachesNothingElse(g, r, x);
      }
    }
    forall j, k | 0 <= j < k < |log|
      ensures !Shadows(g, log[j], log[k])
    {
      assert log[k] in Elems(log);
      if Reaches(g, log[k], log[j]) { ReachesNothingElse(g, log[k], log[j]); }
    }
    assert Elems(log) + {} == Elems(log);
  }

  /** What is marked made in the end accounts for initializers, selected leaves and prerequisites. */
  lemma MadeMeansRun(g: Graph, U: set<Rule>, made: set<Rule>, log: seq<Rule>, rules: seq<Rule>, everything: bool,
                     leafs: map<string, Rule>)
    requires MadeAccounted(g, made, log, {}) && LogValid(g, log, {}) && Closed(U) && g == GraphOf(U) && U == Elems(rules)
    requires LeafDictionary(U, leafs) && RootsMade(rules, everything, leafs, made)
    requires forall r :: r in U && r.leaf != null && Initializer(r.name) ==> r in made
    requires forall x :: x in made && x in g.alias ==> RunOrShadowed(g, log, x)
    ensures forall r :: r in U && r.leaf != null && Initializer(r.name) ==> RunOrShadowed(g, log, r)
    ensures forall r :: r in U && Selected(r, everything, leafs) != null ==>
                          RunOrShadowed(g, log, Selected(r, everything, leafs))
    ensures forall x, p :: x in Elems(log) && x in g.prereqs && p in g.prereqs[x] ==> RunOrShadowed(g, log, p)
  {
  }

  class Builder {
    var log: seq<Rule>  // the leaf directories in the order their actions were run

    constructor ()
      ensures log == []
    {
      log := [];
    }

    /** Update recursion leaf r and its prerequisites. */
    method Update(r: Rule, ghost U: set<Rule>, ghost g: Graph, ghost open: set<Rule>)
      requires r in U && r.leaf != null && !r.made && Closed(U) && g == GraphOf(U)
      requires open <= U && forall o :: o in open ==> Reaches(g, o, r)
      requires LogValid(g, log, open) && MadeAccounted(g, MadeOf(U), log, open)
      modifies this`log, U`made
      ensures old(log) <= log && r in log
      ensures LogValid(g, log, open) && MadeAccounted(g, MadeOf(U), log, open)
      ensures old(MadeOf(U)) <= MadeOf(U)
      ensures NewFrom(g, r, old(log), log, old(MadeOf(U)))
      decreases U - MadeOf(U), 0
    {
      hide LogValid, MadeAccounted, Reaches, Shadowed, RanBefore;
      ghost var log0, made0 := log, MadeOf(U);
      Mark(r, U, g, open);
      ghost var made1 := MadeOf(U);
      UpdatePrereqs(r, U, g, open);
      NewFromTwice(g, r, log0, log0, log, made0, made1);
      ReachesSelf(g, r);
      Run(r, U, g, open);
    }

    /** Mark r made, and the rule of its basename, before its prerequisites are looked at. */
    method Mark(r: Rule, ghost U: set<Rule>, ghost g: Graph, ghost open: set<Rule>)
      requires r in U && r.leaf != null && !r.made && Closed(U) && g == GraphOf(U)
      requires forall o :: o in open ==> Reaches(g, o, r)
      requires LogValid(g, log, open) && MadeAccounted(g, MadeOf(U), log, open)
      modifies U`made
      ensures r.made && MadeOf(U) == old(MadeOf(U)) + {r, g.alias[r]} && r !in open
      ensures LogValid(g, log, open + {r}) && MadeAccounted(g, MadeOf(U), log, open + {r})
    {
      ghost var made := MadeOf(U);
      r.made := true;
      if r.leaf != null {
        r.leaf.made := true;
      }
      assert MadeOf(U) == made + {r, g.alias[r]};
      Opened(g, log, open, made, MadeOf(U), r);
    }

    /** Run the action of r, now that its prerequisites are done. */
    method Run(r: Rule, ghost U: set<Rule>, ghost g: Graph, ghost open: set<Rule>)
      requires LogValid(g, log, open + {r}) && MadeAccounted(g, MadeOf(U), log, open + {r})
      requires r !in open && (forall o :: o in open ==> Reaches(g, o, r))
      requires r in g.prereqs && forall p :: p in g.prereqs[r] ==> p in MadeOf(U) && p in g.alias
      modifies this`log
      ensures log == old(log) + [r] && LogValid(g, log, open) && MadeAccounted(g, MadeOf(U), log, open)
    {
      Closing(g, log, open, MadeOf(U), r);
      log := log + [r];
    }

    method UpdatePrereqs(r: Rule, ghost U: set<Rule>, ghost g: Graph, ghost open: set<Rule>)
      requires r in U && r.leaf != null && r.made && Closed(U) && g == GraphOf(U)
      requires open <= U && forall o :: o in open ==> Reaches(g, o, r)
      requires LogValid(g, log, open + {r}) && MadeAccounted(g, MadeOf(U), log, open + {r})
      modifies this`log, U`made
      ensures old(log) <= log
      ensures LogValid(g, log, open + {r}) && MadeAccounted(g, MadeOf(U), log, open + {r})
      ensures old(MadeOf(U)) <= MadeOf(U) && g.prereqs[r] <= MadeOf(U)
      ensures NewFrom(g, r, old(log), log, old(MadeOf(U)))
      decreases U - MadeOf(U), 2
    {
      hide Reaches, LogValid, MadeAccounted;
      ghost var log0, made0 := log, MadeOf(U);
      ghost var made := made0;
      var list := r.prereqs;
      var i := 0;
      while i < |list|
        invariant 0 <= i <= |list| && r in made && made == MadeOf(U) && made0 <= made
        invariant log0 <= log
        invariant LogValid(g, log, open + {r}) && MadeAccounted(g, made, log, open + {r})
        invariant NewFrom(g, r, log0, log, made0)
        invariant forall j :: 0 <= j < i && list[j].leaf != null ==> list[j] in made
      {
        ghost var log1, made1 := log, made;
        UpdatePrereq(r, list[i], U, g, open);
        made := MadeOf(U);
        NewFromTwice(g, r, log0, log1, log, made0, made1);
        i := i + 1;
      }
    }

    /** Update x, one of the prerequisites of r, unless it is made or not a leaf. */
    method UpdatePrereq(r: Rule, x: Rule, ghost U: set<Rule>, ghost g: Graph, ghost open: set<Rule>)
      requires r in U && r.leaf != null && r.made && Closed(U) && g == GraphOf(U)
      requires x in r.prereqs
      requires open <= U && forall o :: o in open ==> Reaches(g, o, r)
      requires LogValid(g, log, open + {r}) && MadeAccounted(g, MadeOf(U), log, open + {r})
      modifies this`log, U`made
      ensures old(log) <= log
      ensures LogValid(g, log, open + {r}) && MadeAccounted(g, MadeOf(U), log, open + {r})
      ensures old(MadeOf(U)) <= MadeOf(U) && (x.leaf != null ==> x in MadeOf(U))
      ensures NewFrom(g, r, old(log), log, old(MadeOf(U)))
      decreases U - MadeOf(U), 1
    {
      if x.leaf == null || x.made {
        return;
      }
      ReachesSelf(g, r);
      forall o | o in open + {r}
        ensures Reaches(g, o, x)
      {
        ReachesStep(g, o, r, x);
      }
      ghost var log0 := log;
      Update(x, U, g, open + {r});
      forall y | y in Elems(log) - Elems(log0)
        ensures Reaches(g, r, y)
      {
        NewReaches(g, r, x, y);
      }
    }

    /** Scan the Mamfile of a leaf rule; libs[r] are the directory names of its bind commands. */
    method Scan(r: Rule, leafs: map<string, Rule>, libs: map<Rule, seq<string>>, ghost U: set<Rule>)
      requires r in U && Closed(U) && LeafDictionary(U, leafs) && r.prereqs == []
      requires Scanning(GraphOf(U), MadeOf(U), log)
      modifies this`log, U`made, r`prereqs
      ensures Closed(U) && Scanning(GraphOf(U), MadeOf(U), log)
      ensures old(MadeOf(U)) <= MadeOf(U)
      ensures GraphOf(U) == old(GraphOf(U)).(prereqs := old(GraphOf(U)).prereqs[r := Wanted(r, r.leaf != null, leafs, libs)])
      ensures r.leaf != null && Initializer(r.name) ==> r.made
    {
      hide Scanning, LogValid, MadeAccounted;
      ghost var g := GraphOf(U);
      assert g.prereqs[r] == {};
      assert g.prereqs == g.prereqs[r := {}];
      if r.leaf == null {
        return;
      }
      if Initializer(r.name) {
        if !r.made {
          ghost var log0, made0 := log, MadeOf(U);
          ScanningLog(g, made0, log);
          Update(r, U, g, {});
          InitializerAlone(g, log0, log, r, made0, MadeOf(U));
          assert r in Elems(log) && r in MadeOf(U);
        }
        return;
      }
      if r in libs {
        ScanBinds(r, leafs, libs[r], U);
      }
    }

    /** Descend into a rule selected by the command line targets, or into any rule if everything is made. */
    method Descend(item: Rule, everything: bool, leafs: map<string, Rule>, ghost U: set<Rule>, ghost g: Graph)
      requires item in U && Closed(U) && LeafDictionary(U, leafs) && g == GraphOf(U)
      requires LogValid(g, log, {}) && MadeAccounted(g, MadeOf(U), log, {})
      modifies this`log, U`made
      ensures old(log) <= log && old(MadeOf(U)) <= MadeOf(U)
      ensures LogValid(g, log, {}) && MadeAccounted(g, MadeOf(U), log, {})
      ensures var root := Selected(item, everything, leafs);
        && (root == null ==> log == old(log))
        && (root != null ==> root in MadeOf(U) && NewFrom(g, root, old(log), log, old(MadeOf(U))))
    {
      var r := item;
      if !everything {
        if !item.active || item.name !in leafs {
          return;
        }
        r := leafs[item.name];
      }
      if r.leaf != null && !r.made {
        Update(r, U, g, {});
        assert r in Elems(log) + {};
      }
    }

    method DescendAll(rules: seq<Rule>, everything: bool, leafs: map<string, Rule>, ghost U: set<Rule>, ghost g: Graph)
      requires Elems(rules) == U && Closed(U) && LeafDictionary(U, leafs) && g == GraphOf(U)
      requires LogValid(g, log, {}) && MadeAccounted(g, MadeOf(U), log, {})
      requires AllWished(g, log, U, everything, leafs)
      modifies this`log, U`made
      ensures LogValid(g, log, {}) && MadeAccounted(g, MadeOf(U), log, {})
      ensures old(MadeOf(U)) <= MadeOf(U)
      ensures RootsMade(rules, everything, leafs, MadeOf(U))
      ensures AllWished(g, log, U, everything, leafs)
      ensures old(log) <= log && NewSince(old(log), log, old(MadeOf(U)))
    {
      hide LogValid, MadeAccounted, RootsMade, AllWished, NewFrom;
      RootsNone(everything, leafs, MadeOf(U));
      ghost var made0, made, before := MadeOf(U), MadeOf(U), log;
      for k := 0 to |rules|
        invariant LogValid(g, log, {}) && MadeAccounted(g, made, log, {}) && made == MadeOf(U) && made0 <= made
        invariant RootsMade(rules[..k], everything, leafs, made)
        invariant AllWished(g, log, U, everything, leafs)
        invariant before <= log && NewSince(before, log, made0)
      {
        ghost var log0, made1 := log, made;
        PrefixStep(rules, k);
        Descend(rules[k], everything, leafs, U, g);
        made := MadeOf(U);
        WishedMore(g, log0, log, rules[k], U, everything, leafs, made1);
        NewMore(g, rules[k], everything, leafs, before, log0, log, made0, made1);
        RootsMore(rules[..k], rules[k], everything, leafs, made1, made);
      }
      assert rules[..|rules|] == rules;
    }

    /** The walk over three rules in the order y, b, x. */
    method WalkThree(y: Rule, b: Rule, x: Rule, leafs: map<string, Rule>, ghost U: set<Rule>, ghost g: Graph)
      returns (order: seq<Rule>)
      requires U == {y, b, x} && Closed(U) && LeafDictionary(U, leafs) && g == GraphOf(U) && Passing(g, y, b, x)
      requires y.leaf != null && b.leaf != null && x.leaf != null
      requires log == [] && LogValid(g, [], {}) && MadeAccounted(g, MadeOf(U), [], {}) && MadeOf(U) == {}
      modifies this`log, U`made
      ensures LogValid(g, order, {}) && order == [y, b]
    {
      hide LogValid, MadeAccounted, NewFrom, Passing;
      ghost var made0 := MadeOf(U);
      Descend(y, true, leafs, U, g);
      ghost var log1, made1 := log, MadeOf(U);
      Descend(b, true, leafs, U, g);
      ghost var log2, made2 := log, MadeOf(U);
      FirstAndSecond(g, y, b, x, log1, made1, log2, made2);
      Descend(x, true, leafs, U, g);
      NothingNew(g, y, b, x, log2, made2, log);
      order := log;
    }

    /**
     The whole recursion: scan all rules, then descend into the selected ones.
     The rules come in the order of the rule dictionary.
     */
    method Recurse(rules: seq<Rule>, everything: bool, leafs: map<string, Rule>, libs: map<Rule, seq<string>>)
      returns (ghost g: Graph)
      requires NoDuplicates(rules) && Closed(Elems(rules)) && LeafDictionary(Elems(rules), leafs) && log == []
      requires forall r :: r in Elems(rules) ==> !r.made && r.prereqs == []
      modifies this`log, Elems(rules)`made, Elems(rules)`prereqs
      ensures g == GraphOf(Elems(rules)) && DependencyGraph(g, Elems(rules), leafs, libs)
      ensures LogValid(g, log, {})
      ensures forall r :: r in Elems(rules) && r.leaf != null && Initializer(r.name) ==> RunOrShadowed(g, log, r)
      ensures forall r :: r in Elems(rules) && Selected(r, everything, leafs) != null ==>
                            RunOrShadowed(g, log, Selected(r, everything, leafs))
      ensures forall x, p :: x in Elems(log) && x in g.prereqs && p in g.prereqs[x] ==> RunOrShadowed(g, log, p)
      ensures AllWished(g, log, Elems(rules), everything, leafs)
      ensures InitializersFirst(log)
    {
      hide LogValid, MadeAccounted, Scanning, AllWished, DependencyGraph, RootsMade, RunOrShadowed;
      ghost var U := Elems(rules);
      ScanAll(rules, leafs, libs, U);
      g := GraphOf(U);
      ScanningLog(g, MadeOf(U), log);
      ScanningWished(g, MadeOf(U), log, U, everything, leafs);
      ghost var scanned, made := log, MadeOf(U);
      DescendAll(rules, everything, leafs, U, g);
      ScanRunsInitializers(g, made, scanned, log);
      MadeIsRun(g, MadeOf(U), log);
      MadeMeansRun(g, U, MadeOf(U), log, rules, everything, leafs);
    }

    method ScanAll(rules: seq<Rule>, leafs: map<string, Rule>, libs: map<Rule, seq<string>>, ghost U: set<Rule>)
      requires NoDuplicates(rules) && U == Elems(rules) && Closed(U) && LeafDictionary(U, leafs) && log == []
      requires forall r :: r in U ==> !r.made && r.prereqs == []
      modifies this`log, U`made, U`prereqs
      ensures Closed(U) && DependencyGraph(GraphOf(U), U, leafs, libs)
      ensures Scanning(GraphOf(U), MadeOf(U), log)
      ensures forall r :: r in U && r.leaf != null && Initializer(r.name) ==> r in MadeOf(U)
    {
      hide Scanning, Scanned, Shadowed;
      ghost var scanned: set<Rule> := {};
      assert MadeOf(U) == {};
      NothingScanned(GraphOf(U), leafs, libs);
      for k := 0 to |rules|
        invariant Closed(U) && scanned == Elems(rules[..k])
        invariant Scanning(GraphOf(U), MadeOf(U), log)
        invariant forall r :: r in U - scanned ==> r.prereqs == []
        invariant Scanned(scanned, GraphOf(U), MadeOf(U), leafs, libs)
      {
        PrefixElems(rules, k);
        ghost var g, made := GraphOf(U), MadeOf(U);
        Scan(rules[k], leafs, libs, U);
        ScannedMore(scanned, rules[k], g, GraphOf(U), made, MadeOf(U), leafs, libs);
        scanned := scanned + {rules[k]};
      }
      assert rules[..|rules|] == rules;
      ScannedAll(U, leafs, libs);
    }

    method ScanBinds(r: Rule, leafs: map<string, Rule>, names: seq<string>, ghost U: set<Rule>)
      requires r in U && r.leaf != null && !Initializer(r.name)
      requires Closed(U) && LeafDictionary(U, leafs) && r.prereqs == []
      requires Scanning(GraphOf(U), MadeOf(U), log)
      modifies r`prereqs
      ensures Closed(U) && Scanning(GraphOf(U), MadeOf(U), log)
      ensures GraphOf(U) == old(GraphOf(U)).(prereqs := old(GraphOf(U)).prereqs[r := Named(names, leafs, r)])
    {
      hide Scanning;
      ghost var g := GraphOf(U);
      var i := 0;
      while i < |names|
        invariant 0 <= i <= |names| && Closed(U)
        invariant Elems(r.prereqs) == Named(names[..i], leafs, r)
      {
        NamedStep(names, i, leafs, r);
        var t := names[i];
        if t in leafs && leafs[t] != r {
          var q := leafs[t];
          Cons(r, q);
        }
        i := i + 1;
      }
      assert names[..i] == names;
      ghost var g', named := GraphOf(U), Named(names, leafs, r);
      assert g'.prereqs[r] == named;
      forall x | x in U && x != r
        ensures g'.prereqs[x] == g.prereqs[x]
      {
      }
      assert g'.prereqs == g.prereqs[r := named];
      assert g'.alias == g.alias;
      ScanningOther(g, GraphOf(U), MadeOf(U), log, r);
    }
  }

  // ---- What this means for well-formed trees of directories ----

  ghost predicate Acyclic(g: Graph) {
    forall x, y :: x in g.prereqs && y in g.prereqs && x != y && Reaches(g, x, y) ==> !Reaches(g, y, x)
  }

  /** Rules are found by name, and the alias of a leaf rule is the rule of its basename. */
  ghost predicate FoundByName(g: Graph) {
    && (forall x, y :: x in g.prereqs && y in g.prereqs && x.name == y.name ==> x == y)
    && (forall x :: x in g.alias ==> x in g.prereqs && g.alias[x] in g.prereqs && g.alias[x].name == Basename(x.name))
  }

  ghost predicate DistinctBasenames(g: Graph) {
    forall x, y :: x in g.alias && y in g.alias && Basename(x.name) == Basename(y.name) ==> x == y
  }

  lemma {:induction false} BasenameHasNoSlash(s: string)
    ensures '/' !in Basename(s)
  {
    if s != [] && '/' in s[1..] {
      BasenameHasNoSlash(s[1..]);
    }
  }

  lemma {:induction false} BasenameIdempotent(s: string)
    requires '/' !in s
    ensures Basename(s) == s
  {
  }

  /** No leaf directory is marked made on behalf of another. */
  ghost predicate Unshadowed(g: Graph) {
    forall x, y :: x in g.alias && y in g.alias ==> !Shadows(g, y, x)
  }

  lemma DistinctIsUnshadowed(g: Graph)
    requires FoundByName(g) && DistinctBasenames(g)
    ensures Unshadowed(g)
  {
    forall x, y | x in g.alias && y in g.alias && g.alias[y] == x
      ensures x == y
    {
      BasenameHasNoSlash(y.name);
      BasenameIdempotent(x.name);
    }
  }

  /** On an acyclic graph without shadowed leaves every leaf runs after all its leaf prerequisites. */
  lemma TopologicalOrder(g: Graph, log: seq<Rule>, k: nat, p: Rule)
    requires LogValid(g, log, {}) && Unshadowed(g) && Acyclic(g)
    requires k < |log| && log[k] in g.prereqs && p in g.prereqs[log[k]]
    requires p in g.prereqs && p in g.alias && p != log[k]
    ensures p in log[..k]
  {
    assert RanBefore(g, log, k, p, Elems(log) + {});
    ReachesSelf(g, log[k]);
    ReachesStep(g, log[k], log[k], p);
  }

  /** A leaf that runs although it is shadowed runs before the leaf that shadows it, or needs that one. */
  lemma ShadowedRunsFirst(g: Graph, log: seq<Rule>, j: nat, x: Rule)
    requires LogValid(g, log, {}) && j < |log| && Shadows(g, log[j], x) && x in log
    ensures x in log[..j] || Reaches(g, x, log[j])
  {
    var k :| 0 <= k < |log| && log[k] == x;
    assert k < j ==> log[..j][k] == x;
  }

  /** On an acyclic graph the only prerequisites that may be missing before their dependents are shadowed ones. */
  lemma OnlyShadowedArePassedOver(g: Graph, log: seq<Rule>, k: nat, p: Rule)
    requires LogValid(g, log, {}) && Acyclic(g)
    requires k < |log| && log[k] in g.prereqs && p in g.prereqs[log[k]]
    requires p in g.prereqs && p in g.alias && p != log[k] && p !in log[..k]
    ensures Shadowed(g, p, Elems(log))
  {
    assert RanBefore(g, log, k, p, Elems(log) + {});
    assert Elems(log) + {} == Elems(log);
    ReachesSelf(g, log[k]);
    ReachesStep(g, log[k], log[k], p);
  }

  // ---- A shadowed leaf can be passed over altogether ----

  /** The dependencies of leaf directories y, b and x where b needs x, and y has the basename of x. */
  ghost predicate Passing(g: Graph, y: Rule, b: Rule, x: Rule) {
    && y != b && b != x && y != x
    && g == Graph(map[y := {}, b := {x}, x := {}], map[y := x, b := b, x := x])
  }

  lemma PassingReaches(g: Graph, y: Rule, b: Rule, x: Rule, z: Rule)
    requires Passing(g, y, b, x)
    ensures Reaches(g, y, z) ==> z == y
    ensures Reaches(g, x, z) ==> z == x
    ensures Reaches(g, b, z) ==> z == b || z == x
  {
    if Reaches(g, y, z) { ReachesNothingElse(g, y, z); }
    if Reaches(g, x, z) { ReachesNothingElse(g, x, z); }
    if Reaches(g, b, z) {
      var path :| IsPath(g, path) && path[0] == b && path[|path| - 1] == z;
      if |path| > 1 {
        FirstStep(g, path);
        assert IsPath(g, path[1..]) && path[1..][0] == x;
        ReachesNothingElse(g, x, z);
      }
    }
  }

  lemma PassingIsAcyclic(g: Graph, y: Rule, b: Rule, x: Rule)
    requires Passing(g, y, b, x)
    ensures Acyclic(g)
  {
    forall u, v | u in g.prereqs && v in g.prereqs && u != v && Reaches(g, u, v)
      ensures !Reaches(g, v, u)
    {
      PassingReaches(g, y, b, x, u);
      PassingReaches(g, y, b, x, v);
    }
  }

  /** A longer log without duplicates that has one more element. */
  lemma OneMore(log: seq<Rule>, log': seq<Rule>, r: Rule)
    requires log <= log' && NoDuplicates(log') && Elems(log') == Elems(log) + {r} && r !in log
    ensures log' == log + [r]
  {
    assert r in Elems(log');
    var k :| 0 <= k < |log'| && log'[k] == r;
    forall i | 0 <= i < |log|
      ensures log'[i] != r
    {
      assert log'[i] == log[i];
    }
    forall j | |log| <= j < |log'|
      ensures log'[j] == r && j == k
    {
      assert log'[j] in Elems(log');
      NotOld(log, log', j);
    }
    assert log'[|log'| - 1] == r && log'[|log|] == r;
  }

  /** A leaf that is not shadowed and reaches only itself and leaves already made is logged alone. */
  lemma RunsAlone(g: Graph, r: Rule, log: seq<Rule>, made: set<Rule>, log': seq<Rule>, made': set<Rule>)
    requires log <= log' && LogValid(g, log', {}) && MadeAccounted(g, made', log', {}) && r in made' && r in g.alias
    requires NewFrom(g, r, log, log', made) && r !in log && forall y :: y in g.alias ==> !Shadows(g, y, r)
    requires forall z :: z in Elems(log') && Reaches(g, r, z) ==> z == r || z in made
    ensures log' == log + [r] && g.alias[r] in made'
  {
    assert Elems(log') + {} == Elems(log');
    assert r in log' && r in Elems(log');
    assert Elems(log') == Elems(log) + {r};
    OneMore(log, log', r);
  }

  /** The leaf y runs alone, and then b without x. */
  lemma FirstAndSecond(g: Graph, y: Rule, b: Rule, x: Rule, log: seq<Rule>, made: set<Rule>, log': seq<Rule>, made': set<Rule>)
    requires Passing(g, y, b, x)
    requires LogValid(g, log, {}) && MadeAccounted(g, made, log, {}) && y in made && NewFrom(g, y, [], log, {})
    requires log <= log' && LogValid(g, log', {}) && MadeAccounted(g, made', log', {}) && made <= made' && b in made'
    requires NewFrom(g, b, log, log', made)
    ensures log' == [y, b] && x in made'
  {
    hide LogValid, MadeAccounted, Reaches, NewFrom;
    forall z | z in Elems(log) + Elems(log')
      ensures Reaches(g, y, z) ==> z == y
      ensures Reaches(g, b, z) ==> z == b || z == x
    {
      PassingReaches(g, y, b, x, z);
    }
    RunsAlone(g, y, [], {}, log, made);
    RunsAlone(g, b, log, made, log', made');
  }

  lemma NothingNew(g: Graph, y: Rule, b: Rule, x: Rule, log: seq<Rule>, made: set<Rule>, log': seq<Rule>)
    requires Passing(g, y, b, x) && log <= log' && LogValid(g, log', {})
    requires x in made && NewFrom(g, x, log, log', made)
    ensures log' == log
  {
    if log' != log {
      var z := log'[|log|];
      assert z in Elems(log') - Elems(log);
      PassingReaches(g, y, b, x, z);
    }
  }

  method LeafNamed(name: string, alias: Rule?) returns (r: Rule)
    ensures fresh(r) && r.name == name && r.prereqs == [] && r.leaf == (if alias == null then r else alias) && !r.made && !r.active
  {
    r := new Rule(name);
    r.leaf := if alias == null then r else alias;
  }

  lemma PassingNames()
    ensures Basename("a/libx") == "libx" && Basename("libx") == "libx" && Basename("b") == "b"
    ensures !Initializer("a/libx") && !Initializer("libx") && !Initializer("b")
  {
    assert Basename("a/libx") == Basename("/libx");
  }

  /**
   Leaf directories "a/libx", "b" and "libx", the last of them found last; b binds -lx.
   Updating a/libx marks libx made, so that b runs although libx never does.
   */
  method PassedOver() returns (order: seq<Rule>, b: Rule, x: Rule, ghost g: Graph)
    ensures |order| == 2 && order[0].name == "a/libx" && order[1] == b && b.name == "b" && x.name == "libx" && x !in order
    ensures b in g.prereqs && x in g.prereqs[b] && x in g.alias && LogValid(g, order, {})
    ensures Acyclic(g) && FoundByName(g)
  {
    hide LogValid, Reaches, Acyclic;
    x := LeafNamed("libx", null);
    var y := LeafNamed("a/libx", x);
    b := LeafNamed("b", null);
    PassingNames();
    order, g := RunThree(y, b, x);
    PassingIsAcyclic(g, y, b, x);
  }

  lemma ThreeElems(y: Rule, b: Rule, x: Rule)
    requires y != b && b != x && y != x
    ensures NoDuplicates([y, b, x]) && Elems([y, b, x]) == {y, b, x}
  {
  }

  method RunThree(y: Rule, b: Rule, x: Rule) returns (order: seq<Rule>, ghost g: Graph)
    requires y != b && b != x && y != x && y.leaf == x && b.leaf == b && x.leaf == x
    requires !Initializer(y.name) && !Initializer(b.name) && !Initializer(x.name)
    requires !y.made && !b.made && !x.made && y.prereqs == b.prereqs == x.prereqs == []
    modifies y, b, x
    ensures Passing(g, y, b, x) && LogValid(g, order, {}) && order == [y, b]
  {
    hide Initializer, DependencyGraph, Scanning, LogValid, MadeAccounted, Passing, NoDuplicates;
    ThreeElems(y, b, x);
    var builder := new Builder();
    var leafs, libs := map["libx" := x, "b" := b], map[b := ["libx"]];
    ghost var U := {y, b, x};
    builder.ScanAll([y, b, x], leafs, libs, U);
    g := GraphOf(U);
    PassingGraph(g, y, b, x, leafs, libs);
    NothingRun(g, MadeOf(U), builder.log);
    ScanningLog(g, MadeOf(U), builder.log);
    order := builder.WalkThree(y, b, x, leafs, U, g);
  }

  lemma PassingGraph(g: Graph, y: Rule, b: Rule, x: Rule, leafs: map<string, Rule>, libs: map<Rule, seq<string>>)
    requires y != b && b != x && y != x && y.leaf == x && b.leaf == b && x.leaf == x
    requires leafs == map["libx" := x, "b" := b] && libs == map[b := ["libx"]]
    requires !Initializer(y.name) && !Initializer(b.name) && !Initializer(x.name)
    requires g == GraphOf({y, b, x}) && DependencyGraph(g, {y, b, x}, leafs, libs)
    ensures Passing(g, y, b, x)
  {
    assert Named(libs[b], leafs, b) == {x} by {
      assert libs[b][0] == "libx" && "libx" in libs[b];
    }
  }

  lemma FirstElem(log: seq<Rule>)
    ensures log != [] ==> log[0] in Elems(log)
  {
  }

  lemma NothingRun(g: Graph, made: set<Rule>, log: seq<Rule>)
    requires Scanning(g, made, log) && forall r :: r in g.prereqs ==> !Initializer(r.name)
    ensures log == [] && forall r :: r in made ==> r !in g.alias
  {
    FirstElem(log);
  }
}
