/** The dictionaries of mamake: rules, variables and recursion leaves. */
module Dictionary {
  import opened Names
  import opened SplayTree
  import opened SplaySteps

  /** The three trees a search works on, all linked within the items U. */
  ghost predicate Linked(before: Tree, at: Tree, after: Tree, U: set<Item>)
    reads U
  {
    && Separate(before, at, after)
    && Items(before) <= U && Items(at) <= U && Items(after) <= U
    && Rep(before, LinksOf(U)) && Rep(at, LinksOf(U)) && Rep(after, LinksOf(U))
  }

  method RotateRight(root: Item, ghost before: Tree, ghost at: Tree, ghost after: Tree, ghost U: set<Item>)
    returns (top: Item)
    requires Linked(before, at, after, U) && at.Node? && at.left.Node? && root == at.item
    modifies U`left, U`right
    ensures top == at.left.item
    ensures Rep(before, LinksOf(U)) && Rep(RotatedRight(at), LinksOf(U)) && Rep(after, LinksOf(U))
  {
    ghost var h := LinksOf(U);
    assert at.left.item in Items(at.left) && Rep(at.left, h);
    var t := root.left;
    root.left := t.right;
    t.right := root;
    assert LinksOf(U) == LinksRotatedRight(at, h);
    RotateRightLinks(before, at, after, h, LinksOf(U));
    return t;
  }

  method RotateLeft(root: Item, ghost before: Tree, ghost at: Tree, ghost after: Tree, ghost U: set<Item>)
    returns (top: Item)
    requires Linked(before, at, after, U) && at.Node? && at.right.Node? && root == at.item
    modifies U`left, U`right
    ensures top == at.right.item
    ensures Rep(before, LinksOf(U)) && Rep(RotatedLeft(at), LinksOf(U)) && Rep(after, LinksOf(U))
  {
    ghost var h := LinksOf(U);
    assert at.right.item in Items(at.right) && Rep(at.right, h);
    var t := root.right;
    root.right := t.left;
    t.left := root;
    assert LinksOf(U) == LinksRotatedLeft(at, h);
    RotateLeftLinks(before, at, after, h, LinksOf(U));
    return t;
  }

  /** Hang the root below the left end of the tree of larger names and go on with its left child. */
  method MoveAfter(root: Item, right: Item?, rroot: Item?,
                   ghost before: Tree, ghost at: Tree, ghost after: Tree, ghost U: set<Item>)
    returns (root': Item?, right': Item, rroot': Item?, ghost after': Tree)
    requires Linked(before, at, after, U) && at.Node? && root == at.item && rroot == Root(after)
    requires right == if after.Leaf? then null else LeftEnd(after)
    modifies U`left, U`right
    ensures after' == GraftLeft(after, Node(Leaf, at.item, at.right))
    ensures after'.Node? && root' == Root(at.left) && rroot' == Root(after') && right' == LeftEnd(after')
    ensures Rep(before, LinksOf(U)) && Rep(at.left, LinksOf(U)) && Rep(after', LinksOf(U))
  {
    ghost var h := LinksOf(U);
    rroot' := rroot;
    MoveAfterLinks(before, at, after, h);
    after' := GraftLeft(after, Node(Leaf, at.item, at.right));
    if after.Node? { SpineEnds(after); }
    if right != null {
      right.left := root;
    } else {
      rroot' := root;
    }
    right' := root;
    root' := root.left;
    right'.left := null;
    assert LinksOf(U) == MovedAfter(at, after, h);
  }

  method MoveBefore(root: Item, left: Item?, lroot: Item?,
                    ghost before: Tree, ghost at: Tree, ghost after: Tree, ghost U: set<Item>)
    returns (root': Item?, left': Item, lroot': Item?, ghost before': Tree)
    requires Linked(before, at, after, U) && at.Node? && root == at.item && lroot == Root(before)
    requires left == if before.Leaf? then null else RightEnd(before)
    modifies U`left, U`right
    ensures before' == GraftRight(before, Node(at.left, at.item, Leaf))
    ensures before'.Node? && root' == Root(at.right) && lroot' == Root(before') && left' == RightEnd(before')
    ensures Rep(before', LinksOf(U)) && Rep(at.right, LinksOf(U)) && Rep(after, LinksOf(U))
  {
    ghost var h := LinksOf(U);
    lroot' := lroot;
    MoveBeforeLinks(before, at, after, h);
    before' := GraftRight(before, Node(at.left, at.item, Leaf));
    if before.Node? { SpineEnds(before); }
    if left != null {
      left.right := root;
    } else {
      lroot' := root;
    }
    left' := root;
    root' := root.right;
    left'.right := null;
    assert LinksOf(U) == MovedBefore(at, before, h);
  }

  method LinkParts(root: Item, left: Item?, right: Item?, lroot: Item?, rroot: Item?,
                   ghost before: Tree, ghost at: Tree, ghost after: Tree, ghost U: set<Item>)
    requires Linked(before, at, after, U) && at.Node?
    requires root == at.item && lroot == Root(before) && rroot == Root(after)
    requires left == if before.Leaf? then null else RightEnd(before)
    requires right == if after.Leaf? then null else LeftEnd(after)
    modifies U`left, U`right
    ensures Rep(Assemble(Cut(before, at, after), null), LinksOf(U))
  {
    ghost var h := LinksOf(U);
    AssembleFound(before, at, after, h);
    var lroot', rroot' := LinkEnds(root, left, right, lroot, rroot, before, at, after, U);
    ghost var h2 := LinksOf(U);
    root.left := lroot';
    root.right := rroot';
    assert LinksOf(U) == Assembled(before, at, after, h);
  }

  method LinkEnds(root: Item, left: Item?, right: Item?, lroot: Item?, rroot: Item?,
                  ghost before: Tree, ghost at: Tree, ghost after: Tree, ghost U: set<Item>)
    returns (lroot': Item?, rroot': Item?)
    requires Linked(before, at, after, U) && at.Node?
    requires root == at.item && lroot == Root(before) && rroot == Root(after)
    requires left == if before.Leaf? then null else RightEnd(before)
    requires right == if after.Leaf? then null else LeftEnd(after)
    requires before.Node? ==> RightEnd(before) in U
    requires after.Node? ==> LeftEnd(after) in U
    modifies U`left, U`right
    ensures LinksOf(U) == AssembledBefore(before, at, AssembledAfter(at, after, old(LinksOf(U))))
    ensures lroot' == if before.Node? then Root(before) else Root(at.left)
    ensures rroot' == if after.Node? then Root(after) else Root(at.right)
  {
    if before.Node? { SpineEnds(before); }
    if after.Node? { SpineEnds(after); }
    lroot', rroot' := lroot, rroot;
    if right != null {
      right.left := root.right;
    } else {
      rroot' := root.right;
    }
    if left != null {
      left.right := root.left;
    } else {
      lroot' := root.left;
    }
  }

  // ---- Walking over the items ----

  type Entry = (string, Pointer)

  /** Call f for each entry until it says to stop, passing its state e along. */
  function Visit<E>(es: seq<Entry>, f: (E, string, Pointer) -> (E, bool), e: E): (E, bool) {
    if es == [] then (e, false)
    else
      var (e', stop) := f(e, es[0].0, es[0].1);
      if stop then (e', true) else Visit(es[1..], f, e')
  }

  lemma {:induction false} VisitConcat<E>(a: seq<Entry>, b: seq<Entry>, f: (E, string, Pointer) -> (E, bool), e: E)
    ensures Visit(a + b, f, e) == var (e', stop) := Visit(a, f, e); if stop then (e', true) else Visit(b, f, e')
  {
    if a == [] {
      assert a + b == b;
    } else {
      assert (a + b)[0] == a[0] && (a + b)[1..] == a[1..] + b;
      VisitConcat(a[1..], b, f, f(e, a[0].0, a[0].1).0);
    }
  }

  /** Names and values in order. */
  ghost function Entries(t: Tree): (es: seq<Entry>)
    reads Items(t)`value
  {
    if t.Leaf? then [] else Entries(t.left) + [(t.item.name, t.item.value)] + Entries(t.right)
  }

  lemma {:induction false} EntriesInOrder(t: Tree)
    ensures |Entries(t)| == |InOrder(t)|
    ensures forall i :: 0 <= i < |Entries(t)| ==> Entries(t)[i] == (InOrder(t)[i].name, InOrder(t)[i].value)
  {
    if t.Node? {
      EntriesInOrder(t.left);
      EntriesInOrder(t.right);
    }
  }

  /** An item after its left subtree and before its right one. */
  lemma VisitNode<E>(l: seq<Entry>, x: Entry, r: seq<Entry>, f: (E, string, Pointer) -> (E, bool), e: E)
    ensures Visit(l + [x] + r, f, e) ==
            var (e1, stop1) := Visit(l, f, e);
            if stop1 then (e1, true)
            else
              var (e2, stop2) := f(e1, x.0, x.1);
              if stop2 then (e2, true) else Visit(r, f, e2)
  {
    assert l + [x] + r == l + ([x] + r);
    VisitConcat(l, [x] + r, f, e);
    assert ([x] + r)[1..] == r;
  }

  lemma LinkedChildren(t: Tree, U: set<Item>)
    requires t.Node? && Items(t) <= U && Rep(t, LinksOf(U))
    ensures t.item in U && t.item.left == Root(t.left) && t.item.right == Root(t.right)
    ensures Items(t.left) <= U && Rep(t.left, LinksOf(U)) && Items(t.right) <= U && Rep(t.right, LinksOf(U))
  {
  }

  method Apply<E>(first: Item, f: (E, string, Pointer) -> (E, bool), e0: E, ghost t: Tree, ghost U: set<Item>)
    returns (status: int, e: E)
    requires t.Node? && first == t.item && Items(t) <= U && Rep(t, LinksOf(U))
    ensures (e, status != 0) == Visit(Entries(t), f, e0) && (status == 0 || status == -1)
    decreases t
  {
    hide Rep, LinksOf, Items;
    e := e0;
    ghost var rest := t;
    var here: Item? := first;
    while here != null
      invariant here == Root(rest) && Items(rest) <= U && Rep(rest, LinksOf(U))
      invariant rest == t || rest < t
      invariant Visit(Entries(t), f, e0) == Visit(Entries(rest), f, e)
      decreases rest
    {
      LinkedChildren(rest, U);
      var item: Item := here;
      ghost var l, r := Entries(rest.left), Entries(rest.right);
      VisitNode(l, (item.name, item.value), r, f, e);
      var right := item.right;
      var stop := 0;
      if item.left != null {
        stop, e := Apply(item.left, f, e, rest.left, U);
      }
      if stop != 0 {
        return -1, e;
      }
      var called := f(e, item.name, item.value);
      e := called.0;
      if called.1 {
        return -1, e;
      }
      here, rest := right, rest.right;
    }
    return 0, e;
  }

  /** es are the entries of m in the order of their names. */
  ghost predicate Listing(es: seq<Entry>, m: map<string, Pointer>) {
    && (forall i, j :: 0 <= i < j < |es| ==> Less(es[i].0, es[j].0))
    && (forall i :: 0 <= i < |es| ==> es[i].0 in m && m[es[i].0] == es[i].1)
    && (forall k :: k in m ==> exists i :: 0 <= i < |es| && es[i].0 == k)
  }

  /** The items carry exactly the names and values of m. */
  ghost predicate Holds(items: set<Item>, m: map<string, Pointer>)
    reads items`value
  {
    && (forall x :: x in items ==> x.name in m && m[x.name] == x.value)
    && (forall k :: k in m ==> exists x :: x in items && x.name == k)
  }

  ghost function WithFound(m: map<string, Pointer>, found: Item?): map<string, Pointer> {
    if found != null && found.name !in m then m[found.name := NULL] else m
  }

  /** A search leaves the items it had and at most adds a new one without value. */
  lemma HoldsAfter(before: set<Item>, after: set<Item>, m: map<string, Pointer>, found: Item?)
    requires Holds(before, m)
    requires after == before + (if found == null then {} else {found})
    requires found != null && found.name !in m ==> found.value == NULL
    requires found != null && found.name in m ==> found in before
    ensures Holds(after, WithFound(m, found))
  {
  }

  class Dict {
    var root: Item?
    ghost var tree: Tree                      // how the items are linked
    ghost var items: set<Item>                // its items
    ghost var contents: map<string, Pointer>  // the dictionary as a finite map

    ghost predicate Valid()
      reads this, items
    {
      ValidTree() && Holds(items, contents)
    }

    ghost predicate ValidTree()
      reads this, items
    {
      items == Items(tree) && root == Root(tree) && Rep(tree, LinksOf(items)) && Sorted(InOrder(tree))
    }

    constructor ()
      ensures Valid() && tree == Leaf && contents == map[]
    {
      root, tree, items, contents := null, Leaf, {}, map[];
    }

    /**
     Top-down splaying.  The tree left behind is the splayed tree of the functional form;
     a created item has no value yet, and no item's value changes.
     */
    method Search(name: string, create: bool) returns (found: Item?)
      requires Valid()
      modifies this, items`left, items`right
      ensures Valid()
      ensures found == null <==> !create && name !in old(contents)
      ensures found != null ==> found.name == name && root == found && found in items
      ensures found != null ==> if name in old(contents) then found in old(items) else fresh(found) && found.value == NULL
      ensures tree == AfterSearch(old(tree), name, if name in old(contents) then null else found)
      ensures contents == if name in old(contents) || !create then old(contents) else old(contents)[name := NULL]
      ensures items == old(items) + (if found == null then {} else {found})
    {
      NamePresent(tree, contents, name);
      ghost var items0, m := items, contents;
      found := SearchTree(name, create);
      HoldsAfter(items0, items, m, found);
      Record(WithFound(m, found));
    }

    ghost method Record(m: map<string, Pointer>)
      requires ValidTree() && Holds(items, m)
      modifies this`contents
      ensures Valid() && contents == m
    {
      hide Rep, Sorted, InOrder, Items;
      contents := m;
    }

    /** The search itself, on the tree alone. */
    method SearchTree(name: string, create: bool) returns (found: Item?)
      requires ValidTree()
      modifies this`root, this`tree, this`items, items`left, items`right
      ensures ValidTree()
      ensures found != null ==> found.name == name && root == found && found in items
      ensures items == old(items) + (if found == null then {} else {found})
      ensures HasName(InOrder(old(tree)), name) ==> found in old(items) && tree == AfterSearch(old(tree), name, null)
      ensures !HasName(InOrder(old(tree)), name) ==>
        && (if create then found != null && fresh(found) && found.value == NULL else found == null)
        && tree == AfterSearch(old(tree), name, found)
    {
      ghost var t0 := tree;
      ghost var before, at, after;
      found, before, at, after := Restructure(name, create);
      SearchResult(t0, name, before, at, after, tree, found);
      items := Items(tree);
    }

    /** Take the tree apart and put it together again. */
    method Restructure(name: string, create: bool)
      returns (found: Item?, ghost before: Tree, ghost at: Tree, ghost after: Tree)
      requires ValidTree()
      modifies this`root, this`tree, items`left, items`right
      ensures InOrder(before) + InOrder(at) + InOrder(after) == InOrder(old(tree))
      ensures Splay(old(tree), name) == Cut(before, at, after)
      ensures at.Node? <==> HasName(InOrder(old(tree)), name)
      ensures at.Node? ==> found == at.item
      ensures at.Leaf? ==> if create then found != null && fresh(found) && found.value == NULL else found == null
      ensures found != null ==> found.name == name
      ensures tree == Assemble(Cut(before, at, after), if at.Node? then null else found)
      ensures root == Root(tree) && Rep(tree, LinksOf(Items(tree)))
    {
      ghost var t0 := tree;
      var root, left, right, lroot, rroot;
      root, left, right, lroot, rroot, before, at, after := Descend(name);
      CutParts(t0, name, before, at, after);
      if root != null {
        FinishFound(root, left, right, lroot, rroot, before, at, after);
        found := root;
      } else {
        if before.Leaf? && after.Leaf? { NothingLeft(t0); }
        found := FinishAbsent(left, right, lroot, rroot, name, create, before, after);
      }
    }

    method SetVal(name: string, value: Pointer)
      requires Valid()
      modifies this, items
      ensures Valid()
      ensures contents == old(contents)[name := value]
    {
      var node := Search(name, true);
      Overwrite(old(contents), name, NULL, value);
      StoreValue(node, value);
    }

    method StoreValue(node: Item, value: Pointer)
      requires Valid() && node in items
      modifies this`contents, node`value
      ensures Valid() && contents == old(contents)[node.name := value]
    {
      ghost var h := LinksOf(items);
      NameIsUnique(tree, node);
      node.value := value;
      RepFrame(tree, h, LinksOf(items));
      contents := contents[node.name := value];
    }

    method GetVal(name: string) returns (value: Pointer)
      requires Valid()
      modifies this, items`left, items`right
      ensures Valid()
      ensures contents == old(contents)
      ensures value == if name in contents then contents[name] else NULL
    {
      var node := Search(name, false);
      value := if node != null then node.value else NULL;
    }

    /** Apply f to the entries of the dictionary in the order of their names; a true result of f stops the walk. */
    method Walk<E>(f: (E, string, Pointer) -> (E, bool), e0: E) returns (status: int, e: E, ghost es: seq<Entry>)
      requires Valid()
      ensures Listing(es, contents)
      ensures (e, status != 0) == Visit(es, f, e0) && (status == 0 || status == -1)
    {
      status, e, es := 0, e0, Entries(tree);
      TreeLists(tree, contents);
      if root != null {
        status, e := Apply(root, f, e0, tree, items);
      }
    }

    /** The loop of the search: take the tree apart at the name. */
    method Descend(name: string)
      returns (root: Item?, left: Item?, right: Item?, lroot: Item?, rroot: Item?,
               ghost before: Tree, ghost at: Tree, ghost after: Tree)
      requires ValidTree()
      modifies items`left, items`right
      ensures Linked(before, at, after, items)
      ensures Apart(tree, name, before, at, after, LinksOf(items))
      ensures root == Root(at) && lroot == Root(before) && rroot == Root(after)
      ensures left == if before.Leaf? then null else RightEnd(before)
      ensures right == if after.Leaf? then null else LeftEnd(after)
      ensures root != null ==> Strcmp(name, root.name) == 0
    {
      ghost var t0, U := tree, items;
      before, at, after := Leaf, tree, Leaf;
      root, left, right, lroot, rroot := this.root, null, null, null, null;
      while root != null
        invariant tree == t0 && U == Items(t0) && this.root == Root(t0)
        invariant Apart(t0, name, before, at, after, LinksOf(U))
        invariant root == Root(at) && lroot == Root(before) && rroot == Root(after)
        invariant left == if before.Leaf? then null else RightEnd(before)
        invariant right == if after.Leaf? then null else LeftEnd(after)
        decreases at
      {
        var cmp := Strcmp(name, root.name);
        if cmp == 0 {
          break;
        }
        ApartIsSeparate(t0, before, at, after);
        ItemsInParts(t0, before, at, after);
        if cmp < 0 {
          if root.left != null {
            cmp := Strcmp(name, root.left.name);
            if cmp <= 0 {
              root := RotateRight(root, before, at, after, U);
              RotatedRightOrder(at);
              at := RotatedRight(at);
              if cmp == 0 {
                break;
              }
              ApartIsSeparate(t0, before, at, after);
              ItemsInParts(t0, before, at, after);
            }
          }
          MoveAfterCompletes(t0, name, before, at, after, Splay(at.left, name));
          MoveAfterOrder(before, at, after);
          root, right, rroot, after := MoveAfter(root, right, rroot, before, at, after, U);
          at := at.left;
        } else {
          if root.right != null {
            cmp := Strcmp(name, root.right.name);
            if cmp >= 0 {
              root := RotateLeft(root, before, at, after, U);
              RotatedLeftOrder(at);
              at := RotatedLeft(at);
              if cmp == 0 {
                break;
              }
              ApartIsSeparate(t0, before, at, after);
              ItemsInParts(t0, before, at, after);
            }
          }
          MoveBeforeCompletes(t0, name, before, at, after, Splay(at.right, name));
          MoveBeforeOrder(before, at, after);
          root, left, lroot, before := MoveBefore(root, left, lroot, before, at, after, U);
          at := at.right;
        }
      }
      ApartIsSeparate(t0, before, at, after);
      ItemsInParts(t0, before, at, after);
    }

    /** The end of a successful search: the two partial trees become the children of the root. */
    method FinishFound(root: Item, left: Item?, right: Item?, lroot: Item?, rroot: Item?,
                       ghost before: Tree, ghost at: Tree, ghost after: Tree)
      requires items == Items(tree) && Linked(before, at, after, items) && at.Node?
      requires root == at.item && lroot == Root(before) && rroot == Root(after)
      requires left == if before.Leaf? then null else RightEnd(before)
      requires right == if after.Leaf? then null else LeftEnd(after)
      modifies this`root, this`tree, items`left, items`right
      ensures tree == Assemble(Cut(before, at, after), null)
      ensures this.root == root && Rep(tree, LinksOf(Items(tree)))
    {
      ghost var U := items;
      LinkParts(root, left, right, lroot, rroot, before, at, after, U);
      ghost var h := LinksOf(U);
      GraftItems(before, at.left);
      GraftItems(after, at.right);
      this.root := root;
      tree := Assemble(Cut(before, at, after), null);
      RepFrame(tree, h, LinksOf(Items(tree)));
    }

    /** The end of a search that met no item of that name. */
    method FinishAbsent(left: Item?, right: Item?, lroot: Item?, rroot: Item?, name: string, create: bool,
                        ghost before: Tree, ghost after: Tree)
      returns (found: Item?)
      requires items == Items(tree) && Linked(before, Leaf, after, items)
      requires before.Leaf? && after.Leaf? ==> tree.Leaf?
      requires this.root == Root(tree) && lroot == Root(before) && rroot == Root(after)
      requires left == if before.Leaf? then null else RightEnd(before)
      requires right == if after.Leaf? then null else LeftEnd(after)
      modifies this`root, this`tree, items`left, items`right
      ensures create ==> found != null && fresh(found) && found.value == NULL && found.name == name
      ensures !create ==> found == null
      ensures tree == Assemble(Cut(before, Leaf, after), found)
      ensures this.root == Root(tree) && Rep(tree, LinksOf(Items(tree)))
    {
      ghost var h := LinksOf(items);
      found := null;
      if create {
        found := new Item(name);
        found.left := lroot;
        found.right := rroot;
        this.root := found;
        tree := Node(before, found, after);
        RepFrame(before, h, LinksOf(Items(tree)));
        RepFrame(after, h, LinksOf(Items(tree)));
      } else {
        JoinAbsent(left, right, lroot, rroot, before, after);
      }
    }

    method JoinAbsent(left: Item?, right: Item?, lroot: Item?, rroot: Item?, ghost before: Tree, ghost after: Tree)
      requires items == Items(tree) && Linked(before, Leaf, after, items)
      requires before.Leaf? && after.Leaf? ==> tree.Leaf?
      requires this.root == Root(tree) && lroot == Root(before) && rroot == Root(after)
      requires left == if before.Leaf? then null else RightEnd(before)
      requires right == if after.Leaf? then null else LeftEnd(after)
      modifies this`root, this`tree, items`left, items`right
      ensures tree == GraftRight(before, after)
      ensures this.root == Root(tree) && Rep(tree, LinksOf(Items(tree)))
    {
      ghost var U := items;
      ghost var h := LinksOf(U);
      if before.Node? { SpineEnds(before); JoinParts(before, after, h); }
      GraftItems(before, after);
      ghost var h' := h;
      if left != null {
        left.right := rroot;
        h' := LinksOf(U);
        this.root := lroot;
        assert h' == h[RightEnd(before) := (h[RightEnd(before)].0, Root(after))];
      } else if right != null {
        SpineEnds(after);
        AlreadyNull(after, h);
        right.left := lroot;
        h' := LinksOf(U);
        this.root := rroot;
        assert h' == h;
      }
      tree := GraftRight(before, after);
      RepFrame(tree, h', LinksOf(Items(tree)));
    }
  }

  /** What a search leaves, gathered. */
  lemma SearchResult(t0: Tree, name: string, before: Tree, at: Tree, after: Tree, t1: Tree, found: Item?)
    requires Sorted(InOrder(t0)) && InOrder(before) + InOrder(at) + InOrder(after) == InOrder(t0)
    requires Splay(t0, name) == Cut(before, at, after)
    requires at.Node? <==> HasName(InOrder(t0), name)
    requires at.Node? ==> found == at.item
    requires t1 == Assemble(Cut(before, at, after), if at.Node? then null else found)
    requires found != null ==> found.name == name
    ensures Sorted(InOrder(t1)) && Items(t1) == Items(t0) + (if found == null then {} else {found})
    ensures found != null ==> Root(t1) == found && found in Items(t1)
    ensures HasName(InOrder(t0), name) ==> found in Items(t0) && t1 == AfterSearch(t0, name, null)
    ensures !HasName(InOrder(t0), name) ==> t1 == AfterSearch(t0, name, found)
  {
    ItemsInParts(t0, before, at, after);
    SearchKeepsItems(t0, name, found);
    SearchKeepsItems(t0, name, null);
    SearchItems(t0, name, found);
  }

  lemma SearchItems(t0: Tree, name: string, added: Item?)
    requires Sorted(InOrder(t0))
    requires added != null ==> added.name == name
    requires added == null ==> !HasName(InOrder(t0), name)
    requires HasName(InOrder(t0), name) ==> added in Items(t0)
    ensures Items(AfterSearch(t0, name, added)) == Items(t0) + (if added == null then {} else {added})
  {
    SearchKeepsItems(t0, name, added);
    var u, c := AfterSearch(t0, name, added), Splay(t0, name);
    if HasName(InOrder(t0), name) || added == null {
      SubsetItems(u, t0);
      SubsetItems(t0, u);
    } else {
      InsertedItems(t0, u, InOrder(c.before), added, InOrder(c.after));
    }
  }

  lemma InsertedItems(t: Tree, u: Tree, a: seq<Item>, x: Item, b: seq<Item>)
    requires InOrder(t) == a + b && InOrder(u) == a + [x] + b
    ensures Items(u) == Items(t) + {x}
  {
    forall y | y in Items(u)
      ensures y in Items(t) + {x}
    {
      InSequence(u, y);
      if y != x {
        InsertedMember(a, x, b, y);
        InTree(t, y);
      }
    }
    forall y | y in Items(t) + {x}
      ensures y in Items(u)
    {
      if y != x { InSequence(t, y); }
      InsertedMember(a, x, b, y);
      InTree(u, y);
    }
  }

  lemma InsertedMember(a: seq<Item>, x: Item, b: seq<Item>, y: Item)
    ensures y in a + [x] + b <==> y in a + b || y == x
  {
  }

  lemma InTree(t: Tree, x: Item)
    requires x in InOrder(t)
    ensures x in Items(t)
  {
    ItemsAreInOrder(t);
  }

  /** Presence of a name, said of the tree and of the map. */
  lemma NamePresent(t: Tree, m: map<string, Pointer>, name: string)
    requires Holds(Items(t), m)
    ensures HasName(InOrder(t), name) <==> name in m
  {
    if name in m {
      var x :| x in Items(t) && x.name == name;
      InSequence(t, x);
    }
    if HasName(InOrder(t), name) {
      var x :| x in InOrder(t) && x.name == name;
      InTree(t, x);
    }
  }

  lemma TreeLists(t: Tree, m: map<string, Pointer>)
    requires Sorted(InOrder(t)) && Holds(Items(t), m)
    ensures Listing(Entries(t), m)
  {
    var s := InOrder(t);
    EntriesInOrder(t);
    forall i | 0 <= i < |s|
      ensures s[i].name in m && m[s[i].name] == s[i].value
    {
      InTree(t, s[i]);
    }
    forall k | k in m
      ensures exists i :: 0 <= i < |s| && Entries(t)[i].0 == k
    {
      NamePresent(t, m, k);
      var x :| x in s && x.name == k;
      var i :| 0 <= i < |s| && s[i] == x;
      assert Entries(t)[i].0 == k;
    }
  }

  /** The listing of a map is determined by it, so that a walk depends on nothing but the contents. */
  lemma {:induction false} ListingIsUnique(es: seq<Entry>, fs: seq<Entry>, m: map<string, Pointer>)
    requires Listing(es, m) && Listing(fs, m)
    ensures es == fs
  {
    hide Listing, Strcmp;
    EmptyListing(es, m);
    EmptyListing(fs, m);
    if es != [] {
      FirstNotAfter(es, fs, m);
      FirstNotAfter(fs, es, m);
      StrcmpSign(es[0].0, fs[0].0);
      RestListed(es, m);
      RestListed(fs, m);
      ListingIsUnique(es[1..], fs[1..], m - {es[0].0});
      assert es == [es[0]] + es[1..] && fs == [fs[0]] + fs[1..];
    }
  }

  lemma EmptyListing(es: seq<Entry>, m: map<string, Pointer>)
    requires Listing(es, m)
    ensures es == [] <==> m == map[]
  {
    if es != [] {
      assert es[0].0 in m;
    }
  }

  lemma FirstNotAfter(es: seq<Entry>, fs: seq<Entry>, m: map<string, Pointer>)
    requires Listing(es, m) && Listing(fs, m) && es != [] && fs != []
    ensures !Less(fs[0].0, es[0].0) && es[0].0 in m && es[0].1 == m[es[0].0]
  {
    var i :| 0 <= i < |es| && es[i].0 == fs[0].0;
    StrcmpSign(es[0].0, es[i].0);
  }

  lemma RestListed(es: seq<Entry>, m: map<string, Pointer>)
    requires Listing(es, m) && es != []
    ensures Listing(es[1..], m - {es[0].0})
  {
    var rest, m' := es[1..], m - {es[0].0};
    forall i | 0 <= i < |rest|
      ensures rest[i].0 in m' && m'[rest[i].0] == rest[i].1
    {
      assert rest[i] == es[i + 1] && Less(es[0].0, es[i + 1].0);
      StrcmpSign(es[0].0, es[i + 1].0);
    }
    forall k | k in m'
      ensures exists i :: 0 <= i < |rest| && rest[i].0 == k
    {
      var i :| 0 <= i < |es| && es[i].0 == k;
      assert rest[i - 1].0 == k;
    }
  }

  lemma Overwrite(m: map<string, Pointer>, k: string, v: Pointer, w: Pointer)
    ensures m[k := v][k := w] == m[k := w]
  {
  }

  lemma {:induction false} AlreadyNull(t: Tree, h: Links)
    requires t.Node? && Rep(t, h)
    ensures LeftEnd(t) in h && h[LeftEnd(t)].0 == null
  {
    if t.left.Node? {
      AlreadyNull(t.left, h);
    }
  }

  /** What the loop leaves are the three parts of the functional splay. */
  lemma CutParts(t0: Tree, name: string, before: Tree, at: Tree, after: Tree)
    requires Completes(t0, name, before, Splay(at, name), after)
    requires at.Node? ==> Strcmp(name, at.item.name) == 0
    requires Sorted(InOrder(t0))
    ensures Splay(t0, name) == Cut(before, at, after)
    ensures at.Node? <==> HasName(InOrder(t0), name)
    ensures at.Node? ==> at.item.name == name
  {
    GraftLeaf(before);
    GraftLeaf(after);
    SplayFinds(t0, name);
  }

  lemma NothingLeft(t0: Tree)
    requires InOrder(Leaf) + InOrder(Leaf) + InOrder(Leaf) == InOrder(t0)
    ensures t0 == Leaf
  {
    assert t0.Node? ==> |InOrder(t0)| > 0;
  }

  lemma {:induction false} GraftLeaf(t: Tree)
    ensures GraftRight(t, Leaf) == t && GraftLeft(t, Leaf) == t
  {
    if t.Node? {
      GraftLeaf(t.left);
      GraftLeaf(t.right);
    }
  }

  lemma NameIsUnique(t: Tree, x: Item)
    requires Sorted(InOrder(t)) && x in Items(t)
    ensures forall y :: y in Items(t) && y.name == x.name ==> y == x
  {
    forall y | y in Items(t) && y.name == x.name
      ensures y == x
    {
      InSequence(t, x);
      InSequence(t, y);
      SameNameSameItem(InOrder(t), x, y);
    }
  }

  lemma InSequence(t: Tree, x: Item)
    requires x in Items(t)
    ensures x in InOrder(t)
  {
    ItemsAreInOrder(t);
  }

  lemma SameNameSameItem(s: seq<Item>, x: Item, y: Item)
    requires Sorted(s) && x in s && y in s && x.name == y.name
    ensures x == y
  {
    var i :| 0 <= i < |s| && s[i] == x;
    var j :| 0 <= j < |s| && s[j] == y;
    SameNameSameIndex(s, i, j);
    SameNameSameIndex(s, j, i);
  }

  lemma SameNameSameIndex(s: seq<Item>, i: nat, j: nat)
    requires Sorted(s) && i < |s| && j < |s|
    ensures i < j ==> s[i].name != s[j].name
  {
    StrcmpSign(s[i].name, s[j].name);
  }
}
