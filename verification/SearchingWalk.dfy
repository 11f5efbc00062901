/**
 A walk over a dictionary whose callback searches that dictionary: the tree is splayed while the
 walk is under way, and the walk goes on from items it remembers.
 */
module SearchingWalk {
  import opened Names
  import opened SplayTree
  import opened Dictionary

  ghost predicate Subtree(s: Tree, t: Tree) {
    s == t || (t.Node? && (Subtree(s, t.left) || Subtree(s, t.right)))
  }

  /** s is a part of the right subtree of item x in t. */
  ghost predicate Under(s: Tree, x: Item, t: Tree) {
    t.Node? && ((t.item == x && Subtree(s, t.right)) || Under(s, x, t.left) || Under(s, x, t.right))
  }

  lemma {:induction false} UnderIsSubtree(s: Tree, x: Item, t: Tree)
    requires Under(s, x, t)
    ensures Subtree(s, t) && x in InOrder(t)
  {
    if Under(s, x, t.left) {
      UnderIsSubtree(s, x, t.left);
    } else if Under(s, x, t.right) {
      UnderIsSubtree(s, x, t.right);
    }
  }

  lemma {:induction false} RightIsUnder(u: Tree, t: Tree)
    requires u.Node? && Subtree(u, t)
    ensures Under(u.right, u.item, t) && Subtree(u.left, t)
  {
    if u != t {
      if Subtree(u, t.left) {
        RightIsUnder(u, t.left);
      } else {
        RightIsUnder(u, t.right);
      }
    }
  }

  lemma {:induction false} SubtreeRep(s: Tree, t: Tree, h: Links)
    requires Subtree(s, t) && Rep(t, h)
    ensures Rep(s, h) && Items(s) <= Items(t)
  {
    if s != t {
      if Subtree(s, t.left) {
        SubtreeRep(s, t.left, h);
      } else {
        SubtreeRep(s, t.right, h);
      }
    }
  }

  lemma {:induction false} SubtreeSorted(s: Tree, t: Tree)
    requires Subtree(s, t) && Sorted(InOrder(t))
    ensures Sorted(InOrder(s))
  {
    if s != t {
      SortedParts(InOrder(t.left), t.item, InOrder(t.right));
      if Subtree(s, t.left) {
        SubtreeSorted(s, t.left);
      } else {
        SubtreeSorted(s, t.right);
      }
    }
  }

  // ---- A search for a name not behind x leaves what is right of x ----

  /** Where a part right of x is after the cut. */
  ghost predicate InCut(s: Tree, x: Item, c: Cut) {
    (c.at.Node? && Under(s, x, Node(Leaf, c.at.item, c.at.right))) || Under(s, x, c.after)
  }

  lemma NotLeft(s: Tree, x: Item, t: Tree, name: string)
    requires AllBefore(InOrder(t), name) && !Less(x.name, name)
    ensures !Under(s, x, t)
  {
    if Under(s, x, t) {
      UnderIsSubtree(s, x, t);
    }
  }

  lemma {:induction false} SplayUnder(s: Tree, x: Item, t: Tree, name: string)
    requires Sorted(InOrder(t)) && Under(s, x, t) && !Less(x.name, name)
    ensures InCut(s, x, Splay(t, name))
    decreases t, 1
  {
    SortedParts(InOrder(t.left), t.item, InOrder(t.right));
    StrcmpSign(name, t.item.name);
    if Strcmp(name, t.item.name) == 0 {
      NotLeft(s, x, t.left, name);
    } else if Strcmp(name, t.item.name) < 0 {
      SplayUnderBelow(s, x, t, name);
    } else {
      BelowAll(InOrder(t.left), t.item, name);
      SplayUnderAbove(s, x, t, name);
    }
  }

  lemma {:induction false} SplayUnderBelow(s: Tree, x: Item, t: Tree, name: string)
    requires Sorted(InOrder(t)) && Under(s, x, t) && !Less(x.name, name) && Strcmp(name, t.item.name) < 0
    ensures InCut(s, x, Splay(t, name))
    decreases t, 0
  {
    var Node(a, y, b) := t;
    SortedParts(InOrder(a), y, InOrder(b));
    if a.Node? && Strcmp(name, a.item.name) <= 0 {
      SortedParts(InOrder(a.left), a.item, InOrder(a.right));
      StrcmpSign(name, a.item.name);
      if Strcmp(name, a.item.name) == 0 {
        NotLeft(s, x, a.left, name);
      } else if Under(s, x, a.left) {
        SplayUnder(s, x, a.left, name);
      }
    } else if Under(s, x, a) {
      SplayUnder(s, x, a, name);
    }
  }

  lemma {:induction false} SplayUnderAbove(s: Tree, x: Item, t: Tree, name: string)
    requires Sorted(InOrder(t)) && Under(s, x, t) && !Less(x.name, name) && Strcmp(name, t.item.name) > 0
    requires AllBefore(InOrder(t.left), name)
    ensures InCut(s, x, Splay(t, name))
    decreases t, 0
  {
    var Node(a, y, b) := t;
    SortedParts(InOrder(a), y, InOrder(b));
    StrcmpSign(name, y.name);
    NotLeft(s, x, a, name);
    if b.Node? && Strcmp(name, b.item.name) >= 0 {
      SortedParts(InOrder(b.left), b.item, InOrder(b.right));
      StrcmpSign(name, b.item.name);
      if Strcmp(name, b.item.name) == 0 {
        NotLeft(s, x, b.left, name);
      } else {
        BelowAll(InOrder(b.left), b.item, name);
        NotLeft(s, x, b.left, name);
        SplayUnder(s, x, b.right, name);
      }
    } else {
      SplayUnder(s, x, b, name);
    }
  }

  lemma {:induction false} GraftLeftUnder(s: Tree, x: Item, t: Tree, sub: Tree)
    ensures Under(s, x, t) ==> Under(s, x, GraftLeft(t, sub))
    ensures Under(s, x, sub) ==> Under(s, x, GraftLeft(t, sub))
    ensures Subtree(s, sub) ==> Subtree(s, GraftLeft(t, sub))
  {
    if t.Node? {
      GraftLeftUnder(s, x, t.left, sub);
    }
  }

  lemma {:induction false} GraftRightUnder(s: Tree, x: Item, t: Tree, sub: Tree)
    ensures Under(s, x, sub) ==> Under(s, x, GraftRight(t, sub))
  {
    if t.Node? {
      GraftRightUnder(s, x, t.right, sub);
    }
  }

  /** What is right of an item stays right of it, in one piece, while names not behind the item are searched. */
  lemma SearchLeavesRight(s: Tree, x: Item, t: Tree, name: string, added: Item?)
    requires Sorted(InOrder(t)) && Under(s, x, t) && !Less(x.name, name)
    ensures Under(s, x, AfterSearch(t, name, added))
  {
    var c := Splay(t, name);
    SplayUnder(s, x, t, name);
    if c.at.Node? {
      var right := GraftLeft(c.after, c.at.right);
      GraftLeftUnder(s, x, c.after, c.at.right);
      assert !Under(s, x, Leaf);
      assert Under(s, x, right) || (c.at.item == x && Subtree(s, right));
      assert AfterSearch(t, name, added) == Node(GraftRight(c.before, c.at.left), c.at.item, right);
    } else {
      GraftRightUnder(s, x, c.before, c.after);
    }
  }

  // ---- The walk ----

  /** What the walk still has to visit: right subtrees, each with the item it hangs from. */
  type Pending = seq<(Tree, Item)>

  ghost predicate Hanging(pending: Pending, t: Tree) {
    forall i :: 0 <= i < |pending| ==> Under(pending[i].0, pending[i].1, t)
  }

  /** None of the items they hang from is before a name. */
  ghost predicate From(pending: Pending, name: string) {
    forall i :: 0 <= i < |pending| ==> !Less(pending[i].1.name, name)
  }

  lemma NotBehind(x: string, y: string, z: string)
    requires !Less(x, y) && !Less(y, z)
    ensures !Less(x, z)
  {
    StrcmpSign(x, y);
    StrcmpSign(y, z);
    if Less(x, z) {
      if Less(z, y) { LessTransitive(x, z, y); }
    }
  }

  lemma SearchLeavesPending(pending: Pending, t: Tree, here: string, name: string)
    requires Sorted(InOrder(t)) && Hanging(pending, t) && From(pending, here) && !Less(here, name)
    ensures Hanging(pending, AfterSearch(t, name, null))
  {
    hide Sorted, Under, AfterSearch, Less;
    forall i | 0 <= i < |pending|
      ensures Under(pending[i].0, pending[i].1, AfterSearch(t, name, null))
    {
      NotBehind(pending[i].1.name, here, name);
      SearchLeavesRight(pending[i].0, pending[i].1, t, name, null);
    }
  }

  /** Search for each of the names in turn, none of them behind the entry the walk is at. */
  method SearchEach(d: Dict, names: seq<string>, ghost here: string, ghost pending: Pending)
    requires d.Valid() && (forall n :: n in names ==> !Less(here, n)) && Hanging(pending, d.tree) && From(pending, here)
    modifies d, d.items`left, d.items`right
    ensures d.Valid() && d.items == old(d.items) && d.contents == old(d.contents) && Hanging(pending, d.tree)
  {
    hide Hanging, From, Less, Rep, LinksOf, Holds, AfterSearch, Sorted, Items;
    for i := 0 to |names|
      invariant d.Valid() && d.items == old(d.items) && d.contents == old(d.contents) && Hanging(pending, d.tree)
    {
      SearchLeavesPending(pending, d.tree, here, names[i]);
      var found := d.Search(names[i], false);
    }
  }

  /** They hang from items that are not before any of s. */
  ghost predicate Behind(pending: Pending, s: Tree) {
    forall y :: y in InOrder(s) ==> From(pending, y.name)
  }

  lemma BehindParts(pending: Pending, t: Tree)
    requires t.Node? && Sorted(InOrder(t)) && Behind(pending, t)
    ensures Behind(pending, t.right) && From(pending + [(t.right, t.item)], t.item.name)
    ensures Behind(pending + [(t.right, t.item)], t.left)
  {
    SortedParts(InOrder(t.left), t.item, InOrder(t.right));
    assert t.item in InOrder(t);
    StrcmpSign(t.item.name, t.item.name);
    forall y | y in InOrder(t.left)
      ensures From(pending + [(t.right, t.item)], y.name)
    {
      StrcmpSign(t.item.name, y.name);
      assert y in InOrder(t);
    }
  }

  function EntryOf(x: Item, m: map<string, Pointer>): Entry {
    (x.name, if x.name in m then m[x.name] else NULL)
  }

  /** The entries of the items of t in order, with the values they have in m. */
  ghost function Listed(t: Tree, m: map<string, Pointer>): seq<Entry> {
    if t.Leaf? then [] else Listed(t.left, m) + [EntryOf(t.item, m)] + Listed(t.right, m)
  }

  lemma {:induction false} ListedIsEntries(t: Tree, items: set<Item>, m: map<string, Pointer>)
    requires Items(t) <= items && Holds(items, m)
    ensures Listed(t, m) == Entries(t)
  {
    if t.Node? {
      ListedIsEntries(t.left, items, m);
      ListedIsEntries(t.right, items, m);
    }
  }

  lemma ValueKept(d: Dict, x: Item)
    requires d.Valid() && x in d.items
    ensures EntryOf(x, d.contents) == (x.name, x.value)
  {
  }

  lemma VisitNone<E>(f: (E, string, Pointer) -> (E, bool), e: E)
    ensures Visit([], f, e) == (e, false)
  {
  }

  /** What the walk knows of the part it is at. */
  lemma AtNode(rest: Tree, pending: Pending, d: Dict)
    requires d.Valid() && rest.Node? && Subtree(rest, d.tree) && Hanging(pending, d.tree) && Behind(pending, rest)
    ensures rest.item in d.items && rest.item.left == Root(rest.left) && rest.item.right == Root(rest.right) && Subtree(rest.left, d.tree)
    ensures var more := pending + [(rest.right, rest.item)];
      Hanging(more, d.tree) && From(more, rest.item.name) && Behind(more, rest.left) && Behind(pending, rest.right)
  {
    SubtreeRep(rest, d.tree, LinksOf(d.items));
    SubtreeSorted(rest, d.tree);
    hide Sorted, Behind, From, Subtree, Under;
    LinkedChildren(rest, d.items);
    RightIsUnder(rest, d.tree);
    BehindParts(pending, rest);
  }

  lemma Popped(pending: Pending, r: Tree, x: Item, t: Tree)
    requires Hanging(pending + [(r, x)], t)
    ensures Hanging(pending, t) && Subtree(r, t)
  {
    var more := pending + [(r, x)];
    assert more[|pending|] == (r, x);
    UnderIsSubtree(r, x, t);
    forall i | 0 <= i < |pending|
      ensures Under(pending[i].0, pending[i].1, t)
    {
      assert more[i] == pending[i];
    }
  }

  /**
   The walk over the part s of the dictionary, where the callback for an entry first searches names that
   are not behind it: the callback is called for the entries of s as they were, in order.
   */
  method ApplySearching<E(!new)>(d: Dict, first: Item, f: (E, string, Pointer) -> (E, bool), names: (E, string) -> seq<string>,
                                 e0: E, ghost s: Tree, ghost pending: Pending)
    returns (status: int, e: E)
    requires d.Valid() && s.Node? && first == s.item && Subtree(s, d.tree)
    requires Hanging(pending, d.tree) && Behind(pending, s)
    requires forall e, k, n :: n in names(e, k) ==> !Less(k, n)
    modifies d, d.items`left, d.items`right
    ensures d.Valid() && d.items == old(d.items) && d.contents == old(d.contents) && Hanging(pending, d.tree)
    ensures (e, status != 0) == Visit(Listed(s, old(d.contents)), f, e0) && (status == 0 || status == -1)
    decreases s
  {
    hide Under, Rep, Subtree, Items, LinksOf, Less, Sorted, Holds, Visit, Hanging, From, Behind;
    status, e := 0, e0;
    ghost var rest := s;
    var here: Item? := first;
    while here != null
      invariant d.Valid() && d.items == old(d.items) && d.contents == old(d.contents)
      invariant here == Root(rest) && (rest == s || rest < s) && Subtree(rest, d.tree)
      invariant Hanging(pending, d.tree) && Behind(pending, rest)
      invariant Visit(Listed(s, old(d.contents)), f, e0) == Visit(Listed(rest, d.contents), f, e)
      decreases rest
    {
      AtNode(rest, pending, d);
      var item: Item := here;
      ghost var l, r := Listed(rest.left, d.contents), Listed(rest.right, d.contents);
      ghost var more := pending + [(rest.right, item)];
      VisitNode(l, EntryOf(item, d.contents), r, f, e);
      VisitNone(f, e);
      var right := item.right;
      var stop := 0;
      if item.left != null {
        stop, e := ApplySearching(d, item.left, f, names, e, rest.left, more);
      }
      if stop != 0 {
        Popped(pending, rest.right, item, d.tree);
        return -1, e;
      }
      SearchEach(d, names(e, item.name), item.name, more);
      ValueKept(d, item);
      var called := f(e, item.name, item.value);
      e := called.0;
      Popped(pending, rest.right, item, d.tree);
      if called.1 {
        return -1, e;
      }
      here, rest := right, rest.right;
    }
    VisitNone(f, e);
  }

  /** Searching names that are not ahead, the walk does what it does without. */
  method WalkSearching<E(!new)>(d: Dict, f: (E, string, Pointer) -> (E, bool), names: (E, string) -> seq<string>, e0: E)
    returns (status: int, e: E, ghost es: seq<Entry>)
    requires d.Valid()
    requires forall e, k, n :: n in names(e, k) ==> !Less(k, n)
    modifies d, d.items`left, d.items`right
    ensures d.Valid() && d.items == old(d.items) && d.contents == old(d.contents)
    ensures Listing(es, d.contents)
    ensures (e, status != 0) == Visit(es, f, e0) && (status == 0 || status == -1)
  {
    status, e, es := 0, e0, Listed(d.tree, d.contents);
    ListedIsEntries(d.tree, d.items, d.contents);
    TreeLists(d.tree, d.contents);
    if d.root != null {
      status, e := ApplySearching(d, d.root, f, names, e0, d.tree, []);
    }
  }

  // ---- A search ahead of the walk can lose an entry ----

  lemma GraftOnLeaf(sub: Tree)
    ensures GraftLeft(Leaf, sub) == sub
  {
  }

  lemma SingleInOrder(x: Item)
    ensures InOrder(Node(Leaf, x, Leaf)) == [x]
  {
    assert InOrder(Leaf) == [];
  }

  /**
   The walk has visited i and will go on from b, the root of what is right of i.  A search for a, which is
   ahead, takes a out of the part at b: the walk never comes to it.
   */
  lemma SearchAheadLoses(i: Item, a: Item, b: Item, c: Item)
    requires Less(i.name, a.name) && Less(a.name, b.name) && Less(b.name, c.name)
    ensures
      var rest := Node(Node(Leaf, a, Leaf), b, Node(Leaf, c, Leaf));
      var t := Node(Leaf, i, rest);
      && Sorted(InOrder(t)) && InOrder(t) == [i, a, b, c] && Under(rest, i, t)
      && AfterSearch(t, a.name, null) == Node(Node(Leaf, i, Leaf), a, Node(Leaf, b, Node(Leaf, c, Leaf)))
  {
    StrcmpSign(a.name, i.name);
    StrcmpSign(a.name, a.name);
    LessTransitive(i.name, a.name, b.name);
    LessTransitive(i.name, b.name, c.name);
    LessTransitive(a.name, b.name, c.name);
    var rest := Node(Node(Leaf, a, Leaf), b, Node(Leaf, c, Leaf));
    SingleInOrder(a);
    SingleInOrder(c);
    assert InOrder(rest) == [a] + [b] + [c];
    assert InOrder(Node(Leaf, i, rest)) == [] + [i] + InOrder(rest) == [i, a, b, c];
    var behind := Node(Leaf, b, Node(Leaf, c, Leaf));
    assert Splay(rest, a.name) == Cut(Leaf, Node(Leaf, a, behind), Leaf);
    assert Splay(Node(Leaf, i, rest), a.name) == Cut(Node(Leaf, i, Leaf), Node(Leaf, a, behind), Leaf);
    GraftLeaf(Node(Leaf, i, Leaf));
    GraftOnLeaf(behind);
    assert Subtree(rest, rest);
  }
}
