/** What each rotation and link of the search loop keeps, on the links alone. */
module SplaySteps {
  import opened Names
  import opened SplayTree

  /**
   The state of the search loop: the tree t0 was taken apart into before, at and after,
   the links h join each of them, and splaying what is left of t0 completes Splay(t0, name).
   */
  ghost predicate Apart(t0: Tree, name: string, before: Tree, at: Tree, after: Tree, h: Links) {
    && Sorted(InOrder(t0))
    && InOrder(before) + InOrder(at) + InOrder(after) == InOrder(t0)
    && Rep(before, h) && Rep(at, h) && Rep(after, h)
    && Completes(t0, name, before, Splay(at, name), after)
  }

  ghost predicate Completes(t0: Tree, name: string, before: Tree, c: Cut, after: Tree) {
    Splay(t0, name) == Cut(GraftRight(before, c.before), c.at, GraftLeft(after, c.after))
  }

  /** Three trees that share no item, each reaching an item along one path only. */
  ghost predicate Separate(before: Tree, at: Tree, after: Tree) {
    && Distinct(before) && Distinct(at) && Distinct(after)
    && Items(before) !! Items(at) && Items(before) !! Items(after) && Items(at) !! Items(after)
  }

  lemma ApartIsSeparate(t0: Tree, before: Tree, at: Tree, after: Tree)
    requires Sorted(InOrder(t0)) && InOrder(before) + InOrder(at) + InOrder(after) == InOrder(t0)
    ensures Separate(before, at, after)
  {
    ThreeParts(InOrder(before), InOrder(at), InOrder(after));
    SortedIsDistinct(before);
    SortedIsDistinct(at);
    SortedIsDistinct(after);
    DisjointItems(before, at);
    DisjointItems(before, after);
    DisjointItems(at, after);
  }

  lemma PartsOf(a: seq<Item>, b: seq<Item>, c: seq<Item>)
    ensures forall x :: x in a || x in b || x in c ==> x in a + b + c
  {
  }

  lemma SubsetItems(t: Tree, u: Tree)
    requires forall x :: x in InOrder(t) ==> x in InOrder(u)
    ensures Items(t) <= Items(u)
  {
    ItemsAreInOrder(t);
    ItemsAreInOrder(u);
  }

  lemma ItemsInParts(t0: Tree, before: Tree, at: Tree, after: Tree)
    requires InOrder(before) + InOrder(at) + InOrder(after) == InOrder(t0)
    ensures Items(before) <= Items(t0) && Items(at) <= Items(t0) && Items(after) <= Items(t0)
  {
    PartsOf(InOrder(before), InOrder(at), InOrder(after));
    SubsetItems(before, t0);
    SubsetItems(at, t0);
    SubsetItems(after, t0);
  }

  lemma {:induction false} RepKeys(t: Tree, h: Links)
    requires Rep(t, h)
    ensures Items(t) <= h.Keys
  {
    if t.Node? {
      RepKeys(t.left, h);
      RepKeys(t.right, h);
    }
  }

  ghost function RotatedRight(t: Tree): Tree
    requires t.Node? && t.left.Node?
  {
    Node(t.left.left, t.left.item, Node(t.left.right, t.item, t.right))
  }

  ghost function RotatedLeft(t: Tree): Tree
    requires t.Node? && t.right.Node?
  {
    Node(Node(t.left, t.item, t.right.left), t.right.item, t.right.right)
  }

  lemma Reassociate(a: seq<Item>, x: Item, b: seq<Item>, y: Item, c: seq<Item>)
    ensures a + [x] + (b + [y] + c) == (a + [x] + b) + [y] + c
  {
  }

  lemma RotatedRightOrder(t: Tree)
    requires t.Node? && t.left.Node?
    ensures InOrder(RotatedRight(t)) == InOrder(t)
  {
    Reassociate(InOrder(t.left.left), t.left.item, InOrder(t.left.right), t.item, InOrder(t.right));
  }

  lemma RotatedLeftOrder(t: Tree)
    requires t.Node? && t.right.Node?
    ensures InOrder(RotatedLeft(t)) == InOrder(t)
  {
    Reassociate(InOrder(t.left), t.item, InOrder(t.right.left), t.right.item, InOrder(t.right.right));
  }

  ghost function LinksRotatedRight(at: Tree, h: Links): Links
    requires at.Node? && at.left.Node?
  {
    h[at.item := (Root(at.left.right), Root(at.right))][at.left.item := (Root(at.left.left), at.item)]
  }

  ghost function LinksRotatedLeft(at: Tree, h: Links): Links
    requires at.Node? && at.right.Node?
  {
    h[at.item := (Root(at.left), Root(at.right.left))][at.right.item := (at.item, Root(at.right.right))]
  }

  lemma RotateRightLinks(before: Tree, at: Tree, after: Tree, h: Links, h': Links)
    requires Separate(before, at, after) && Rep(before, h) && Rep(at, h) && Rep(after, h)
    requires at.Node? && at.left.Node? && h' == LinksRotatedRight(at, h)
    ensures Rep(before, h') && Rep(RotatedRight(at), h') && Rep(after, h')
  {
    RepFrame(before, h, h');
    RepFrame(after, h, h');
    RotateRightAlone(at, h);
  }

  lemma RotateRightAlone(at: Tree, h: Links)
    requires Distinct(at) && Rep(at, h) && at.Node? && at.left.Node?
    ensures Rep(RotatedRight(at), LinksRotatedRight(at, h))
  {
    var h', a := LinksRotatedRight(at, h), at.left;
    assert Distinct(a) && Items(a) == Items(a.left) + {a.item} + Items(a.right);
    RepFrame(a.left, h, h');
    RepFrame(a.right, h, h');
    RepFrame(at.right, h, h');
  }

  lemma RotateLeftLinks(before: Tree, at: Tree, after: Tree, h: Links, h': Links)
    requires Separate(before, at, after) && Rep(before, h) && Rep(at, h) && Rep(after, h)
    requires at.Node? && at.right.Node? && h' == LinksRotatedLeft(at, h)
    ensures Rep(before, h') && Rep(RotatedLeft(at), h') && Rep(after, h')
  {
    RepFrame(before, h, h');
    RepFrame(after, h, h');
    RotateLeftAlone(at, h);
  }

  lemma RotateLeftAlone(at: Tree, h: Links)
    requires Distinct(at) && Rep(at, h) && at.Node? && at.right.Node?
    ensures Rep(RotatedLeft(at), LinksRotatedLeft(at, h))
  {
    var h', b := LinksRotatedLeft(at, h), at.right;
    assert Distinct(b) && Items(b) == Items(b.left) + {b.item} + Items(b.right);
    RepFrame(b.left, h, h');
    RepFrame(b.right, h, h');
    RepFrame(at.left, h, h');
  }

  /** The links after the root was hung below the left end of after and cut off from its left child. */
  ghost function MovedAfter(at: Tree, after: Tree, h: Links): Links
    requires at.Node?
    requires after.Node? ==> LeftEnd(after) in h
  {
    (if after.Node? then h[LeftEnd(after) := (at.item, h[LeftEnd(after)].1)] else h)[at.item := (null, Root(at.right))]
  }

  ghost function MovedBefore(at: Tree, before: Tree, h: Links): Links
    requires at.Node?
    requires before.Node? ==> RightEnd(before) in h
  {
    (if before.Node? then h[RightEnd(before) := (h[RightEnd(before)].0, at.item)] else h)[at.item := (Root(at.left), null)]
  }

  lemma MoveAfterLinks(before: Tree, at: Tree, after: Tree, h: Links)
    requires Separate(before, at, after) && Rep(before, h) && Rep(at, h) && Rep(after, h) && at.Node?
    ensures after.Node? ==> LeftEnd(after) in h
    ensures var h', after' := MovedAfter(at, after, h), GraftLeft(after, Node(Leaf, at.item, at.right));
      && Rep(before, h') && Rep(at.left, h') && Rep(after', h')
      && LeftEnd(after') == at.item
      && Root(after') == if after.Node? then Root(after) else at.item
  {
    var moved := Node(Leaf, at.item, at.right);
    RepKeys(after, h);
    if after.Node? { SpineEnds(after); }
    var h' := MovedAfter(at, after, h);
    RepFrame(before, h, h');
    RepFrame(at.left, h, h');
    RepFrame(at.right, h, h');
    if after.Node? { LinkLeft(after, moved, h, h'); }
    GraftItems(after, moved);
  }

  lemma MoveAfterOrder(before: Tree, at: Tree, after: Tree)
    requires at.Node?
    ensures InOrder(before) + InOrder(at.left) + InOrder(GraftLeft(after, Node(Leaf, at.item, at.right))) ==
            InOrder(before) + InOrder(at) + InOrder(after)
  {
    var moved := Node(Leaf, at.item, at.right);
    GraftLeftInOrder(after, moved);
    assert InOrder(moved) == [at.item] + InOrder(at.right);
  }

  lemma MoveBeforeLinks(before: Tree, at: Tree, after: Tree, h: Links)
    requires Separate(before, at, after) && Rep(before, h) && Rep(at, h) && Rep(after, h) && at.Node?
    ensures before.Node? ==> RightEnd(before) in h
    ensures var h', before' := MovedBefore(at, before, h), GraftRight(before, Node(at.left, at.item, Leaf));
      && Rep(before', h') && Rep(at.right, h') && Rep(after, h')
      && RightEnd(before') == at.item
      && Root(before') == if before.Node? then Root(before) else at.item
  {
    var moved := Node(at.left, at.item, Leaf);
    RepKeys(before, h);
    if before.Node? { SpineEnds(before); }
    var h' := MovedBefore(at, before, h);
    RepFrame(after, h, h');
    RepFrame(at.left, h, h');
    RepFrame(at.right, h, h');
    if before.Node? { LinkRight(before, moved, h, h'); }
    GraftItems(before, moved);
  }

  lemma MoveBeforeOrder(before: Tree, at: Tree, after: Tree)
    requires at.Node?
    ensures InOrder(GraftRight(before, Node(at.left, at.item, Leaf))) + InOrder(at.right) + InOrder(after) ==
            InOrder(before) + InOrder(at) + InOrder(after)
  {
    var moved := Node(at.left, at.item, Leaf);
    GraftRightInOrder(before, moved);
    assert InOrder(moved) == InOrder(at.left) + [at.item];
  }

  lemma MoveAfterCompletes(t0: Tree, name: string, before: Tree, at: Tree, after: Tree, c: Cut)
    requires at.Node? && Completes(t0, name, before, c.(after := Node(c.after, at.item, at.right)), after)
    ensures Completes(t0, name, before, c, GraftLeft(after, Node(Leaf, at.item, at.right)))
  {
    GraftAssociative(after, Node(Leaf, at.item, at.right), c.after);
  }

  lemma MoveBeforeCompletes(t0: Tree, name: string, before: Tree, at: Tree, after: Tree, c: Cut)
    requires at.Node? && Completes(t0, name, before, c.(before := Node(at.left, at.item, c.before)), after)
    ensures Completes(t0, name, GraftRight(before, Node(at.left, at.item, Leaf)), c, after)
  {
    GraftAssociative(before, Node(at.left, at.item, Leaf), c.before);
  }

  /** The links after the final assembly of a found root. */
  ghost function Assembled(before: Tree, at: Tree, after: Tree, h: Links): Links
    requires at.Node?
    requires before.Node? ==> RightEnd(before) in h
    requires after.Node? ==> LeftEnd(after) in h
  {
    AssembledBefore(before, at, AssembledAfter(at, after, h))
      [at.item := (if before.Node? then Root(before) else Root(at.left), if after.Node? then Root(after) else Root(at.right))]
  }

  ghost function AssembledAfter(at: Tree, after: Tree, h: Links): (h': Links)
    requires at.Node?
    requires after.Node? ==> LeftEnd(after) in h
    ensures h'.Keys == h.Keys
  {
    if after.Node? then h[LeftEnd(after) := (Root(at.right), h[LeftEnd(after)].1)] else h
  }

  ghost function AssembledBefore(before: Tree, at: Tree, h: Links): Links
    requires at.Node?
    requires before.Node? ==> RightEnd(before) in h
  {
    if before.Node? then h[RightEnd(before) := (h[RightEnd(before)].0, Root(at.left))] else h
  }

  lemma AssembleFound(before: Tree, at: Tree, after: Tree, h: Links)
    requires Separate(before, at, after) && Rep(before, h) && Rep(at, h) && Rep(after, h) && at.Node?
    ensures before.Node? ==> RightEnd(before) in h
    ensures after.Node? ==> LeftEnd(after) in h
    ensures Rep(Node(GraftRight(before, at.left), at.item, GraftLeft(after, at.right)), Assembled(before, at, after, h))
  {
    RepKeys(before, h);
    RepKeys(after, h);
    if before.Node? { SpineEnds(before); }
    if after.Node? { SpineEnds(after); }
    var h' := Assembled(before, at, after, h);
    RepFrame(at.left, h, h');
    RepFrame(at.right, h, h');
    if before.Node? { LinkRight(before, at.left, h, h'); }
    if after.Node? { LinkLeft(after, at.right, h, h'); }
  }

  lemma JoinParts(before: Tree, after: Tree, h: Links)
    requires Separate(before, Leaf, after) && Rep(before, h) && Rep(after, h) && before.Node?
    ensures RightEnd(before) in h
    ensures var h' := h[RightEnd(before) := (h[RightEnd(before)].0, Root(after))];
      Rep(GraftRight(before, after), h') && Root(GraftRight(before, after)) == Root(before)
  {
    RepKeys(before, h);
    SpineEnds(before);
    var h' := h[RightEnd(before) := (h[RightEnd(before)].0, Root(after))];
    RepFrame(after, h, h');
    LinkRight(before, after, h, h');
  }
}
