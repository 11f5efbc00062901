/**
 The shape of a mamake dictionary and what top-down splaying does to it.

 A Tree is the ghost picture of the linked items of a dictionary.  Splay is the
 recursive form of the search loop: it cuts a tree at a name into the part before
 it, the subtree whose root carries it, and the part after it, taking the same
 rotations as the loop.  Assemble is what the code does with the three parts.
 */
module SplayTree {
  import opened Names

  /** A pointer to a user value; NULL is 0. */
  type Pointer = nat
  const NULL: Pointer := 0

  class Item {
    const name: string
    var left: Item?
    var right: Item?
    var value: Pointer

    /** A zero-filled allocation that then receives its name. */
    constructor (name: string)
      ensures this.name == name && left == null && right == null && value == NULL
    {
      this.name := name;
      left, right, value := null, null, NULL;
    }
  }

  datatype Tree = Leaf | Node(left: Tree, item: Item, right: Tree)

  ghost function InOrder(t: Tree): seq<Item> {
    match t
    case Leaf => []
    case Node(a, x, b) => InOrder(a) + [x] + InOrder(b)
  }

  ghost function Items(t: Tree): set<Item> {
    match t
    case Leaf => {}
    case Node(a, x, b) => Items(a) + {x} + Items(b)
  }

  /** The items come in strictly ascending order of name. */
  ghost predicate Sorted(s: seq<Item>) {
    forall i, j :: 0 <= i < j < |s| ==> Less(s[i].name, s[j].name)
  }

  ghost function Root(t: Tree): Item? {
    if t.Leaf? then null else t.item
  }

  /** The left and right link of some items at one moment. */
  type Links = map<Item, (Item?, Item?)>

  ghost function LinksOf(items: set<Item>): (h: Links)
    reads items
    ensures h.Keys == items
  {
    map x | x in items :: (x.left, x.right)
  }

  /** The links h join the items of t into t. */
  ghost predicate Rep(t: Tree, h: Links) {
    t.Node? ==>
      && t.item in h && h[t.item] == (Root(t.left), Root(t.right))
      && Rep(t.left, h) && Rep(t.right, h)
  }

  /** The item at the end of the right spine. */
  ghost function RightEnd(t: Tree): Item
    requires t.Node?
  {
    if t.right.Leaf? then t.item else RightEnd(t.right)
  }

  ghost function LeftEnd(t: Tree): Item
    requires t.Node?
  {
    if t.left.Leaf? then t.item else LeftEnd(t.left)
  }

  /** t with sub hung below the end of its right spine. */
  ghost function GraftRight(t: Tree, sub: Tree): Tree {
    if t.Leaf? then sub else t.(right := GraftRight(t.right, sub))
  }

  ghost function GraftLeft(t: Tree, sub: Tree): Tree {
    if t.Leaf? then sub else t.(left := GraftLeft(t.left, sub))
  }

  datatype Cut = Cut(before: Tree, at: Tree, after: Tree)

  ghost function Splay(t: Tree, name: string): Cut {
    if t.Leaf? then
      Cut(Leaf, Leaf, Leaf)
    else
      var Node(a, x, b) := t;
      var cmp := Strcmp(name, x.name);
      if cmp == 0 then
        Cut(Leaf, t, Leaf)
      else if cmp < 0 then
        if a.Node? && Strcmp(name, a.item.name) <= 0 then
          var rest := Node(a.right, x, b);
          if Strcmp(name, a.item.name) == 0 then
            Cut(Leaf, Node(a.left, a.item, rest), Leaf)
          else
            var c := Splay(a.left, name);
            c.(after := Node(c.after, a.item, rest))
        else
          var c := Splay(a, name);
          c.(after := Node(c.after, x, b))
      else
        if b.Node? && Strcmp(name, b.item.name) >= 0 then
          var rest := Node(a, x, b.left);
          if Strcmp(name, b.item.name) == 0 then
            Cut(Leaf, Node(rest, b.item, b.right), Leaf)
          else
            var c := Splay(b.right, name);
            c.(before := Node(rest, b.item, c.before))
        else
          var c := Splay(b, name);
          c.(before := Node(a, x, c.before))
  }

  /** The tree left behind by a search; added is the item created for an absent name, if any. */
  ghost function Assemble(c: Cut, added: Item?): Tree {
    if c.at.Node? then
      Node(GraftRight(c.before, c.at.left), c.at.item, GraftLeft(c.after, c.at.right))
    else if added != null then
      Node(c.before, added, c.after)
    else
      GraftRight(c.before, c.after)
  }

  ghost function AfterSearch(t: Tree, name: string, added: Item?): Tree {
    Assemble(Splay(t, name), added)
  }

  // ---- What splaying keeps ----

  lemma {:induction false} ItemsAreInOrder(t: Tree)
    ensures forall x :: x in Items(t) <==> x in InOrder(t)
  {
    if t.Node? {
      ItemsAreInOrder(t.left);
      ItemsAreInOrder(t.right);
    }
  }

  lemma {:induction false} GraftRightInOrder(t: Tree, sub: Tree)
    ensures InOrder(GraftRight(t, sub)) == InOrder(t) + InOrder(sub)
  {
    if t.Node? {
      GraftRightInOrder(t.right, sub);
    }
  }

  lemma {:induction false} GraftLeftInOrder(t: Tree, sub: Tree)
    ensures InOrder(GraftLeft(t, sub)) == InOrder(sub) + InOrder(t)
  {
    if t.Node? {
      GraftLeftInOrder(t.left, sub);
      assert InOrder(sub) + InOrder(t.left) + [t.item] + InOrder(t.right) ==
             InOrder(sub) + (InOrder(t.left) + [t.item] + InOrder(t.right));
    }
  }

  lemma RegroupRight(l: seq<Item>, m: seq<Item>, r: seq<Item>, a: seq<Item>, tail: seq<Item>)
    requires l + m + r == a
    ensures l + m + (r + tail) == a + tail
  {
  }

  lemma RegroupLeft(l: seq<Item>, m: seq<Item>, r: seq<Item>, a: seq<Item>, head: seq<Item>)
    requires l + m + r == a
    ensures (head + l) + m + r == head + a
  {
  }

  lemma RegroupNode(a: seq<Item>, x: Item, b: seq<Item>)
    ensures a + [x] + b == a + ([x] + b)
  {
  }

  lemma Regroup(a: seq<Item>, x: Item, b: seq<Item>, y: Item, c: seq<Item>)
    ensures (a + [x] + b) + [y] + c == a + ([x] + (b + [y] + c))
    ensures (a + [x] + b) + [y] + c == a + [x] + (b + [y] + c)
  {
  }

  lemma Regroup'(a: seq<Item>, x: Item, b: seq<Item>, y: Item, c: seq<Item>)
    ensures a + [x] + (b + [y] + c) == ((a + [x] + b) + [y]) + c
  {
  }

  /** Rotations and links never change the order of the items, whatever the tree. */
  lemma {:induction false} SplayKeepsOrder(t: Tree, name: string)
    ensures var c := Splay(t, name); InOrder(c.before) + InOrder(c.at) + InOrder(c.after) == InOrder(t)
    decreases t, 1
  {
    if t.Node? && Strcmp(name, t.item.name) < 0 {
      SplayKeepsOrderBelow(t, name);
    } else if t.Node? && Strcmp(name, t.item.name) > 0 {
      SplayKeepsOrderAbove(t, name);
    }
  }

  lemma {:induction false} SplayKeepsOrderBelow(t: Tree, name: string)
    requires t.Node? && Strcmp(name, t.item.name) < 0
    ensures var c := Splay(t, name); InOrder(c.before) + InOrder(c.at) + InOrder(c.after) == InOrder(t)
    decreases t, 0
  {
    var Node(a, x, b) := t;
    if a.Node? && Strcmp(name, a.item.name) <= 0 {
      var rest := Node(a.right, x, b);
      Regroup(InOrder(a.left), a.item, InOrder(a.right), x, InOrder(b));
      if Strcmp(name, a.item.name) < 0 {
        var c := Splay(a.left, name);
        SplayKeepsOrder(a.left, name);
        RegroupRight(InOrder(c.before), InOrder(c.at), InOrder(c.after), InOrder(a.left), [a.item] + InOrder(rest));
        RegroupNode(InOrder(c.after), a.item, InOrder(rest));
      }
    } else {
      var c := Splay(a, name);
      SplayKeepsOrder(a, name);
      RegroupRight(InOrder(c.before), InOrder(c.at), InOrder(c.after), InOrder(a), [x] + InOrder(b));
      RegroupNode(InOrder(a), x, InOrder(b));
      RegroupNode(InOrder(c.after), x, InOrder(b));
    }
  }

  lemma {:induction false} SplayKeepsOrderAbove(t: Tree, name: string)
    requires t.Node? && Strcmp(name, t.item.name) > 0
    ensures var c := Splay(t, name); InOrder(c.before) + InOrder(c.at) + InOrder(c.after) == InOrder(t)
    decreases t, 0
  {
    var Node(a, x, b) := t;
    if b.Node? && Strcmp(name, b.item.name) >= 0 {
      var rest := Node(a, x, b.left);
      Regroup'(InOrder(a), x, InOrder(b.left), b.item, InOrder(b.right));
      if Strcmp(name, b.item.name) > 0 {
        var c := Splay(b.right, name);
        SplayKeepsOrder(b.right, name);
        RegroupLeft(InOrder(c.before), InOrder(c.at), InOrder(c.after), InOrder(b.right), InOrder(rest) + [b.item]);
      }
    } else {
      var c := Splay(b, name);
      SplayKeepsOrder(b, name);
      RegroupLeft(InOrder(c.before), InOrder(c.at), InOrder(c.after), InOrder(b), InOrder(a) + [x]);
    }
  }

  ghost predicate AllBefore(s: seq<Item>, name: string) {
    forall x :: x in s ==> Less(x.name, name)
  }

  ghost predicate AllAfter(name: string, s: seq<Item>) {
    forall x :: x in s ==> Less(name, x.name)
  }

  lemma SortedParts(a: seq<Item>, x: Item, b: seq<Item>)
    requires Sorted(a + [x] + b)
    ensures Sorted(a) && Sorted(b) && AllBefore(a, x.name) && AllAfter(x.name, b)
  {
    var s := a + [x] + b;
    assert forall i :: 0 <= i < |a| ==> s[i] == a[i];
    assert forall i :: 0 <= i < |b| ==> s[|a| + 1 + i] == b[i];
    assert s[|a|] == x;
  }

  lemma AboveAll(name: string, x: Item, s: seq<Item>)
    requires Less(name, x.name) && AllAfter(x.name, s)
    ensures AllAfter(name, [x] + s)
  {
    forall y | y in s ensures Less(name, y.name) {
      LessTransitive(name, x.name, y.name);
    }
  }

  lemma BelowAll(s: seq<Item>, x: Item, name: string)
    requires AllBefore(s, x.name) && Less(x.name, name)
    ensures AllBefore(s + [x], name)
  {
    forall y | y in s ensures Less(y.name, name) {
      LessTransitive(y.name, x.name, name);
    }
  }

  /** On a search tree the three parts really are the names below, at and above the sought name. */
  lemma {:induction false} SplayCuts(t: Tree, name: string)
    requires Sorted(InOrder(t))
    ensures var c := Splay(t, name);
      && AllBefore(InOrder(c.before), name)
      && AllAfter(name, InOrder(c.after))
      && (c.at.Node? ==> c.at.item.name == name)
  {
    if t.Node? {
      var Node(a, x, b) := t;
      SortedParts(InOrder(a), x, InOrder(b));
      StrcmpSign(name, x.name);
      if Strcmp(name, x.name) < 0 {
        AboveAll(name, x, InOrder(b));
        if a.Node? && Strcmp(name, a.item.name) <= 0 {
          StrcmpSign(name, a.item.name);
          SortedParts(InOrder(a.left), a.item, InOrder(a.right));
          if Strcmp(name, a.item.name) < 0 {
            AboveAll(name, a.item, InOrder(a.right));
          }
          SplayCuts(a.left, name);
        } else {
          SplayCuts(a, name);
        }
      } else if Strcmp(name, x.name) > 0 {
        BelowAll(InOrder(a), x, name);
        if b.Node? && Strcmp(name, b.item.name) >= 0 {
          StrcmpSign(name, b.item.name);
          SortedParts(InOrder(b.left), b.item, InOrder(b.right));
          if Strcmp(name, b.item.name) > 0 {
            BelowAll(InOrder(b.left), b.item, name);
          }
          SplayCuts(b.right, name);
        } else {
          SplayCuts(b, name);
        }
      }
    }
  }

  ghost predicate HasName(s: seq<Item>, name: string) {
    exists x :: x in s && x.name == name
  }

  /** The search finds a name exactly when some item carries it. */
  lemma SplayFinds(t: Tree, name: string)
    requires Sorted(InOrder(t))
    ensures Splay(t, name).at.Node? <==> HasName(InOrder(t), name)
    ensures Splay(t, name).at.Node? ==> Splay(t, name).at.item.name == name
  {
    var c := Splay(t, name);
    SplayCuts(t, name);
    SplayKeepsOrder(t, name);
    StrcmpSign(name, name);
    if c.at.Node? {
      assert c.at.item in InOrder(c.at);
    } else {
      forall x | x in InOrder(t) ensures x.name != name {
        assert x in InOrder(c.before) || x in InOrder(c.after);
      }
    }
  }

  /**
   Searching keeps the sequence of items; creating an absent name puts the new item
   at the one place that keeps the sequence sorted.
   */
  lemma SearchKeepsItems(t: Tree, name: string, added: Item?)
    requires Sorted(InOrder(t))
    requires added != null ==> added.name == name
    ensures var u := AfterSearch(t, name, added);
      && Sorted(InOrder(u))
      && (HasName(InOrder(t), name) || added == null ==> InOrder(u) == InOrder(t))
      && (!HasName(InOrder(t), name) && added != null ==>
            var c := Splay(t, name);
            && InOrder(t) == InOrder(c.before) + InOrder(c.after)
            && InOrder(u) == InOrder(c.before) + [added] + InOrder(c.after))
      && (HasName(InOrder(t), name) || added != null ==> u.Node? && u.item.name == name)
  {
    SplayFinds(t, name);
    if HasName(InOrder(t), name) {
      SplayKeepsOrder(t, name);
      AssembleInOrder(Splay(t, name));
    } else {
      AbsentKeepsItems(t, name, added);
    }
  }

  lemma EmptyMiddle(a: seq<Item>, b: seq<Item>)
    ensures a + [] + b == a + b
  {
  }

  lemma AbsentKeepsItems(t: Tree, name: string, added: Item?)
    requires Sorted(InOrder(t)) && Splay(t, name).at.Leaf?
    requires added != null ==> added.name == name
    ensures var c := Splay(t, name);
      && InOrder(t) == InOrder(c.before) + InOrder(c.after)
      && (added == null ==> InOrder(Assemble(c, added)) == InOrder(t))
      && (added != null ==> InOrder(Assemble(c, added)) == InOrder(c.before) + [added] + InOrder(c.after))
      && Sorted(InOrder(Assemble(c, added)))
  {
    var c := Splay(t, name);
    SplayKeepsOrder(t, name);
    EmptyMiddle(InOrder(c.before), InOrder(c.after));
    if added != null {
      SplayCuts(t, name);
      InsertSorted(InOrder(c.before), added, InOrder(c.after));
    } else {
      GraftRightInOrder(c.before, c.after);
    }
  }

  lemma AssembleInOrder(c: Cut)
    requires c.at.Node?
    ensures InOrder(Assemble(c, null)) == InOrder(c.before) + InOrder(c.at) + InOrder(c.after)
  {
    GraftRightInOrder(c.before, c.at.left);
    GraftLeftInOrder(c.after, c.at.right);
    assert InOrder(Assemble(c, null)) ==
           InOrder(c.before) + InOrder(c.at.left) + [c.at.item] + (InOrder(c.at.right) + InOrder(c.after));
  }

  lemma InsertSorted(a: seq<Item>, x: Item, b: seq<Item>)
    requires Sorted(a + b) && AllBefore(a, x.name) && AllAfter(x.name, b)
    ensures Sorted(a + [x] + b)
  {
    var s, t := a + b, a + [x] + b;
    forall i, j | 0 <= i < j < |t| ensures Less(t[i].name, t[j].name) {
      var i' := if i < |a| then i else i - 1;
      var j' := if j < |a| then j else j - 1;
      assert i != |a| ==> t[i] == s[i'];
      assert j != |a| ==> t[j] == s[j'];
    }
  }

  // ---- Linking below a spine end on the heap ----

  /** An item is reached along at most one path. */
  ghost predicate Distinct(t: Tree) {
    t.Node? ==>
      && t.item !in Items(t.left) && t.item !in Items(t.right) && Items(t.left) !! Items(t.right)
      && Distinct(t.left) && Distinct(t.right)
  }

  lemma DisjointSides(a: seq<Item>, b: seq<Item>)
    requires Sorted(a + b)
    ensures Sorted(a) && Sorted(b)
    ensures forall x :: x in a ==> x !in b
  {
    var s := a + b;
    assert forall i :: 0 <= i < |a| ==> s[i] == a[i];
    assert forall i :: 0 <= i < |b| ==> s[|a| + i] == b[i];
    forall x | x in a && x in b ensures false {
      var i :| 0 <= i < |a| && a[i] == x;
      var j :| 0 <= j < |b| && b[j] == x;
      assert Less(s[i].name, s[|a| + j].name);
      StrcmpSign(x.name, x.name);
    }
  }

  lemma ThreeParts(a: seq<Item>, b: seq<Item>, c: seq<Item>)
    requires Sorted(a + b + c)
    ensures Sorted(a) && Sorted(b) && Sorted(c)
    ensures forall x :: x in a ==> x !in b && x !in c
    ensures forall x :: x in b ==> x !in c
  {
    DisjointSides(a + b, c);
    DisjointSides(a, b);
    assert forall x :: x in a || x in b ==> x in a + b;
  }

  lemma DisjointItems(t: Tree, u: Tree)
    requires forall x :: x in InOrder(t) ==> x !in InOrder(u)
    ensures Items(t) !! Items(u)
  {
    ItemsAreInOrder(t);
    ItemsAreInOrder(u);
  }

  lemma NodeParts(t: Tree)
    requires t.Node? && Sorted(InOrder(t))
    ensures Sorted(InOrder(t.left)) && Sorted(InOrder(t.right))
    ensures t.item !in Items(t.left) && t.item !in Items(t.right) && Items(t.left) !! Items(t.right)
  {
    ThreeParts(InOrder(t.left), [t.item], InOrder(t.right));
    DisjointItems(t.left, t.right);
    ItemsAreInOrder(t.left);
    ItemsAreInOrder(t.right);
  }

  lemma {:induction false} SortedIsDistinct(t: Tree)
    requires Sorted(InOrder(t))
    ensures Distinct(t)
  {
    if t.Node? {
      NodeParts(t);
      SortedIsDistinct(t.left);
      SortedIsDistinct(t.right);
    }
  }

  lemma {:induction false} SpineEnds(t: Tree)
    requires t.Node?
    ensures RightEnd(t) in Items(t) && LeftEnd(t) in Items(t)
  {
    if t.right.Node? { SpineEnds(t.right); }
    if t.left.Node? { SpineEnds(t.left); }
  }

  lemma {:induction false} GraftItems(t: Tree, sub: Tree)
    ensures Items(GraftRight(t, sub)) == Items(t) + Items(sub)
    ensures Items(GraftLeft(t, sub)) == Items(t) + Items(sub)
    ensures sub.Node? ==> RightEnd(GraftRight(t, sub)) == RightEnd(sub)
    ensures sub.Node? ==> LeftEnd(GraftLeft(t, sub)) == LeftEnd(sub)
  {
    if t.Node? {
      GraftItems(t.right, sub);
      GraftItems(t.left, sub);
    }
  }

  lemma {:induction false} GraftAssociative(t: Tree, a: Tree, b: Tree)
    ensures GraftRight(GraftRight(t, a), b) == GraftRight(t, GraftRight(a, b))
    ensures GraftLeft(GraftLeft(t, a), b) == GraftLeft(t, GraftLeft(a, b))
  {
    if t.Node? {
      GraftAssociative(t.right, a, b);
      GraftAssociative(t.left, a, b);
    }
  }

  lemma {:induction false} RepFrame(t: Tree, h: Links, h': Links)
    requires Rep(t, h) && forall x :: x in Items(t) && x in h ==> x in h' && h'[x] == h[x]
    ensures Rep(t, h')
  {
    if t.Node? {
      RepFrame(t.left, h, h');
      RepFrame(t.right, h, h');
    }
  }

  /** Pointing the right link of the spine end at sub hangs sub there. */
  lemma {:induction false} LinkRight(t: Tree, sub: Tree, h: Links, h': Links)
    requires t.Node? && Distinct(t) && Rep(t, h) && Rep(sub, h')
    requires forall x :: x in Items(t) && x != RightEnd(t) && x in h ==> x in h' && h'[x] == h[x]
    requires RightEnd(t) in h && RightEnd(t) in h' && h'[RightEnd(t)] == (h[RightEnd(t)].0, Root(sub))
    ensures Rep(GraftRight(t, sub), h') && Root(GraftRight(t, sub)) == Root(t)
  {
    if t.right.Node? {
      SpineEnds(t.right);
      LinkRight(t.right, sub, h, h');
    }
    RepFrame(t.left, h, h');
  }

  lemma {:induction false} LinkLeft(t: Tree, sub: Tree, h: Links, h': Links)
    requires t.Node? && Distinct(t) && Rep(t, h) && Rep(sub, h')
    requires forall x :: x in Items(t) && x != LeftEnd(t) && x in h ==> x in h' && h'[x] == h[x]
    requires LeftEnd(t) in h && LeftEnd(t) in h' && h'[LeftEnd(t)] == (Root(sub), h[LeftEnd(t)].1)
    ensures Rep(GraftLeft(t, sub), h') && Root(GraftLeft(t, sub)) == Root(t)
  {
    if t.left.Node? {
      SpineEnds(t.left);
      LinkLeft(t.left, sub, h, h');
    }
    RepFrame(t.right, h, h');
  }
}
