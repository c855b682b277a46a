/** The items of util/balanced_btree.c and the moves that relink them in place.

    A tree value over items (module Shapes) is carried along as a ghost: Sound and Linked say
    that the pointers spell out that value, LinkedPath that they spell out the way from a place
    in the tree up to its root.
 */
module TreeLinks {
  import opened Shapes
  import opened KeyOrder

  class Item {
    var left: Item?
    var right: Item?
    var parent: Item?
    const key: Key
    var btree: object?
    var visited: nat

    constructor (key: Key)
      ensures this.key == key && btree == null && visited == 0
      ensures left == null && right == null && parent == null
    {
      this.key := key;
      left, right, parent, btree, visited := null, null, null, null, 0;
    }
  }

  ghost function RootOf(t: Tree<Item>): Item? {
    if t.Leaf? then null else t.item
  }

  ghost function ParentOf(p: Path<Item>): Item? {
    match p
    case Top => null
    case InLeft(_, x, _) => x
    case InRight(_, x, _) => x
  }

  ghost predicate HangsFrom(t: Tree<Item>, up: Item?)
    reads Elements(t)`left, Elements(t)`right, Elements(t)`parent
  {
    t.Node? ==> t.item.parent == up
  }

  /** The links among the items of t spell out t. */
  ghost predicate Sound(t: Tree<Item>)
    reads Elements(t)`left, Elements(t)`right, Elements(t)`parent
  {
    match t
    case Leaf => true
    case Node(l, n, r) =>
      && n.left == RootOf(l) && HangsFrom(l, n) && Sound(l)
      && n.right == RootOf(r) && HangsFrom(r, n) && Sound(r)
  }

  /** The links under x spell out t, and x's parent link leads to up. */
  ghost predicate Linked(t: Tree<Item>, x: Item?, up: Item?)
    reads Elements(t)`left, Elements(t)`right, Elements(t)`parent
  {
    x == RootOf(t) && HangsFrom(t, up) && Sound(t)
  }

  /** The links from root down to the hole spell out p, and the hole holds x. */
  ghost predicate LinkedPath(p: Path<Item>, x: Item?, root: Item?)
    reads PathElements(p)`left, PathElements(p)`right, PathElements(p)`parent
  {
    match p
    case Top => x == root
    case InLeft(up, n, r) =>
      n.left == x && n.parent == ParentOf(up) && Linked(r, n.right, n) && LinkedPath(up, n, root)
    case InRight(up, n, l) =>
      n.right == x && n.parent == ParentOf(up) && Linked(l, n.left, n) && LinkedPath(up, n, root)
  }

  lemma {:induction false} PlugLinked(p: Path<Item>, t: Tree<Item>, root: Item?)
    ensures Linked(Plug(p, t), root, null) <==>
            LinkedPath(p, RootOf(t), root) && Linked(t, RootOf(t), ParentOf(p))
  {
    match p
    case Top =>
    case InLeft(up, x, r) => PlugLinked(up, Node(t, x, r), root);
    case InRight(up, x, l) => PlugLinked(up, Node(l, x, t), root);
  }

  // ----- Links that survive a change of the heap

  lemma {:induction false} ElementsAllocated(t: Tree<Item>)
    ensures forall n :: n in Elements(t) ==> allocated(n)
  {
    if t.Node? {
      ElementsAllocated(t.left);
      ElementsAllocated(t.right);
    }
  }

  lemma {:induction false} ListAllocated(t: Tree<Item>)
    ensures forall i :: 0 <= i < |Inorder(t)| ==> allocated(Inorder(t)[i])
  {
    if t.Node? {
      ListAllocated(t.left);
      ListAllocated(t.right);
    }
  }

  lemma {:induction false} PathAllocated(p: Path<Item>)
    ensures forall n :: n in PathElements(p) ==> allocated(n)
  {
    if !p.Top? {
      PathAllocated(p.up);
      ElementsAllocated(p.side);
    }
  }

  /** Nothing changes but, perhaps, where the root hangs. */
  twostate lemma {:induction false} SameLinks(t: Tree<Item>)
    requires old(Sound(t)) && Distinct(t)
    requires forall n :: n in Elements(t) ==>
               && old(allocated(n)) && n.left == old(n.left) && n.right == old(n.right)
               && (n == RootOf(t) || n.parent == old(n.parent))
    ensures Sound(t)
  {
    if t.Node? {
      SameLinks(t.left);
      SameLinks(t.right);
    }
  }

  // ----- Taking out the greatest or the least item

  ghost function AboveGreatest(t: Tree<Item>): Item
    requires t.Node? && t.right.Node?
  {
    if t.right.right.Leaf? then t.item else AboveGreatest(t.right)
  }

  ghost function UnderGreatest(t: Tree<Item>): Tree<Item>
    requires t.Node?
  {
    if t.right.Leaf? then t.left else UnderGreatest(t.right)
  }

  ghost function AboveLeast(t: Tree<Item>): Item
    requires t.Node? && t.left.Node?
  {
    if t.left.left.Leaf? then t.item else AboveLeast(t.left)
  }

  ghost function UnderLeast(t: Tree<Item>): Tree<Item>
    requires t.Node?
  {
    if t.left.Leaf? then t.right else UnderLeast(t.left)
  }

  lemma {:induction false} GreatestSpine(t: Tree<Item>)
    requires t.Node? && Distinct(t)
    ensures Greatest(t) in Elements(t) && Elements(UnderGreatest(t)) <= Elements(t) - {Greatest(t)}
    ensures Distinct(UnderGreatest(t))
    ensures t.right.Node? ==>
              && Greatest(t) in Elements(t.right) && Elements(UnderGreatest(t)) <= Elements(t.right)
              && AboveGreatest(t) in Elements(t) - Elements(t.left) - {Greatest(t)} - Elements(UnderGreatest(t))
  {
    if t.right.Node? {
      GreatestSpine(t.right);
    }
  }

  lemma {:induction false} LeastSpine(t: Tree<Item>)
    requires t.Node? && Distinct(t)
    ensures Least(t) in Elements(t) && Elements(UnderLeast(t)) <= Elements(t) - {Least(t)}
    ensures Distinct(UnderLeast(t))
    ensures t.left.Node? ==>
              && Least(t) in Elements(t.left) && Elements(UnderLeast(t)) <= Elements(t.left)
              && AboveLeast(t) in Elements(t) - Elements(t.right) - {Least(t)} - Elements(UnderLeast(t))
  {
    if t.left.Node? {
      LeastSpine(t.left);
    }
  }

  lemma {:induction false} GreatestLinks(t: Tree<Item>)
    requires t.Node? && Sound(t) && Distinct(t)
    ensures Greatest(t).right == null
    ensures Linked(UnderGreatest(t), Greatest(t).left, Greatest(t))
    ensures t.right.Leaf? ==> Greatest(t) == t.item
    ensures t.right.Node? ==>
              && Greatest(t).parent == AboveGreatest(t)
              && AboveGreatest(t).right == Greatest(t) && AboveGreatest(t).left != Greatest(t)
  {
    if t.right.Node? {
      GreatestLinks(t.right);
    }
  }

  lemma {:induction false} LeastLinks(t: Tree<Item>)
    requires t.Node? && Sound(t) && Distinct(t)
    ensures Least(t).left == null
    ensures Linked(UnderLeast(t), Least(t).right, Least(t))
    ensures t.left.Leaf? ==> Least(t) == t.item
    ensures t.left.Node? ==>
              && Least(t).parent == AboveLeast(t)
              && AboveLeast(t).left == Least(t) && AboveLeast(t).right != Least(t)
  {
    if t.left.Node? {
      LeastLinks(t.left);
    }
  }

  /** The relinking that takes the greatest item out of a tree: the item above it gets the
      subtree below it.  Where the root hangs is left open. */
  twostate predicate GreatestUnlinked(t: Tree<Item>)
    requires t.Node? && t.right.Node?
    reads Elements(t)
  {
    forall n :: n in Elements(t) && n != Greatest(t) ==>
      && old(allocated(n))
      && n.left == old(n.left)
      && n.right == (if n == AboveGreatest(t) then RootOf(UnderGreatest(t)) else old(n.right))
      && (n == t.item ||
          n.parent == if n == RootOf(UnderGreatest(t)) then AboveGreatest(t) else old(n.parent))
  }

  twostate predicate LeastUnlinked(t: Tree<Item>)
    requires t.Node? && t.left.Node?
    reads Elements(t)
  {
    forall n :: n in Elements(t) && n != Least(t) ==>
      && old(allocated(n))
      && n.right == old(n.right)
      && n.left == (if n == AboveLeast(t) then RootOf(UnderLeast(t)) else old(n.left))
      && (n == t.item ||
          n.parent == if n == RootOf(UnderLeast(t)) then AboveLeast(t) else old(n.parent))
  }

  twostate lemma {:induction false} GreatestTakenOut(t: Tree<Item>)
    requires t.Node? && t.right.Node? && Distinct(t)
    requires old(Sound(t)) && GreatestUnlinked(t)
    ensures Sound(DropGreatest(t))
  {
    GreatestSpine(t);
    SameLinks(t.left);
    if t.right.right.Leaf? {
      SameLinks(t.right.left);
    } else {
      GreatestSpine(t.right);
      GreatestTakenOut(t.right);
    }
  }

  twostate lemma {:induction false} LeastTakenOut(t: Tree<Item>)
    requires t.Node? && t.left.Node? && Distinct(t)
    requires old(Sound(t)) && LeastUnlinked(t)
    ensures Sound(DropLeast(t))
  {
    LeastSpine(t);
    SameLinks(t.right);
    if t.left.left.Leaf? {
      SameLinks(t.left.right);
    } else {
      LeastSpine(t.left);
      LeastTakenOut(t.left);
    }
  }

  /** BalancedBTreeWeight. */
  function WeightOf(x: Item?, ghost t: Tree<Item>): (n: nat)
    requires x == RootOf(t) && Sound(t)
    reads Elements(t)`left, Elements(t)`right, Elements(t)`parent
    ensures n == Weight(t)
    decreases t
  {
    if x == null then 0
    else 1 + WeightOf(x.left, t.left) + WeightOf(x.right, t.right)
  }

  /** BalancedBTreeFindGreatest. */
  method FindGreatest(root: Item?, ghost t: Tree<Item>) returns (prev: Item?)
    requires root == RootOf(t) && Sound(t)
    ensures prev == if t.Leaf? then null else Greatest(t)
  {
    prev := null;
    var x := root;
    ghost var s := t;
    while x != null
      invariant x == RootOf(s) && Sound(s)
      invariant s.Node? ==> t.Node? && Greatest(s) == Greatest(t)
      invariant s.Leaf? ==> prev == if t.Leaf? then null else Greatest(t)
      decreases s
    {
      prev := x;
      s := s.right;
      x := x.right;
    }
  }

  /** BalancedBTreeFindLeast. */
  method FindLeast(root: Item?, ghost t: Tree<Item>) returns (prev: Item?)
    requires root == RootOf(t) && Sound(t)
    ensures prev == if t.Leaf? then null else Least(t)
  {
    prev := null;
    var x := root;
    ghost var s := t;
    while x != null
      invariant x == RootOf(s) && Sound(s)
      invariant s.Node? ==> t.Node? && Least(s) == Least(t)
      invariant s.Leaf? ==> prev == if t.Leaf? then null else Least(t)
      decreases s
    {
      prev := x;
      s := s.left;
      x := x.left;
    }
  }

  /** Lines 559-562, 576-579 and 667-671. */
  method TakeRight(replace: Item, item: Item)
    requires replace != item && item.right != replace && item.right != item
    modifies replace`right, (if item.right == null then {} else {item.right})`parent
    ensures replace.right == old(item.right) && (replace.right != null ==> replace.right.parent == replace)
  {
    replace.right := item.right;
    if replace.right != null {
      replace.right.parent := replace;
    }
  }

  /** Lines 563-566, 570-573 and 641-645. */
  method TakeLeft(replace: Item, item: Item)
    requires replace != item && item.left != replace && item.left != item
    modifies replace`left, (if item.left == null then {} else {item.left})`parent
    ensures replace.left == old(item.left) && (replace.left != null ==> replace.left.parent == replace)
  {
    replace.left := item.left;
    if replace.left != null {
      replace.left.parent := replace;
    }
  }

  method HangRight(parent: Item, left: Item?)
    requires left != parent
    modifies parent`right, (if left == null then {} else {left})`parent
    ensures parent.right == left && (left != null ==> left.parent == parent)
  {
    parent.right := left;
    if left != null {
      left.parent := parent;
    }
  }

  method HangLeft(parent: Item, right: Item?)
    requires right != parent
    modifies parent`left, (if right == null then {} else {right})`parent
    ensures parent.left == right && (right != null ==> right.parent == parent)
  {
    parent.left := right;
    if right != null {
      right.parent := parent;
    }
  }

  /** The links of t's items are as they were. */
  twostate predicate Untouched(t: Tree<Item>)
    reads Elements(t)
  {
    forall n :: n in Elements(t) ==>
      old(allocated(n)) && n.left == old(n.left) && n.right == old(n.right) && n.parent == old(n.parent)
  }

  /** What lifting the greatest item of the left subtree does to every link of t. */
  twostate predicate GreatestLifted(t: Tree<Item>)
    requires t.Node? && t.left.Node?
    reads *
  {
    var g, x := Greatest(t.left), t.item;
    && g.right == x && x.parent == g && x.left == null && x.right == RootOf(t.right)
    && Untouched(t.right)
    && if t.left.right.Leaf? then g.left == RootOf(t.left.left) && Untouched(t.left.left)
       else g.left == t.left.item && t.left.item.parent == g && GreatestUnlinked(t.left)
  }

  twostate lemma GreatestLiftedIsSound(t: Tree<Item>)
    requires t.Node? && t.left.Node? && old(Sound(t)) && Distinct(t)
    requires GreatestLifted(t)
    ensures Sound(ShiftRight(t))
  {
    SameLinks(t.right);
    if t.left.right.Leaf? {
      SameLinks(t.left.left);
    } else {
      GreatestTakenOut(t.left);
    }
  }

  /** Lines 635-658: the greatest item of the left subtree becomes the root. */
  method LiftGreatest(x: Item, ghost t: Tree<Item>) returns (item: Item)
    requires t.Node? && t.left.Node? && x == t.item && Sound(t) && Distinct(t)
    modifies Elements(t)`left, Elements(t)`right, Elements(t)`parent
    ensures item == Greatest(t.left) && item.parent == old(x.parent) && GreatestLifted(t)
  {
    ElementsAllocated(t);
    GreatestSpine(t.left);
    GreatestLinks(t.left);
    var g := FindGreatest(x.left, t.left);
    item := g;
    var left := item.left;
    var parent := item.parent;

    item.parent := x.parent;
    item.right := x;
    if x.left != item {
      TakeLeft(item, x);
    }
    x.parent := item;
    x.left := null;
    if parent != x {
      HangRight(parent, left);
    }
  }

  /** What lifting the least item of the right subtree does to every link of t. */
  twostate predicate LeastLifted(t: Tree<Item>)
    requires t.Node? && t.right.Node?
    reads *
  {
    var g, x := Least(t.right), t.item;
    && g.left == x && x.parent == g && x.right == null && x.left == RootOf(t.left)
    && Untouched(t.left)
    && if t.right.left.Leaf? then g.right == RootOf(t.right.right) && Untouched(t.right.right)
       else g.right == t.right.item && t.right.item.parent == g && LeastUnlinked(t.right)
  }

  twostate lemma LeastLiftedIsSound(t: Tree<Item>)
    requires t.Node? && t.right.Node? && old(Sound(t)) && Distinct(t)
    requires LeastLifted(t)
    ensures Sound(ShiftLeft(t))
  {
    SameLinks(t.left);
    if t.right.left.Leaf? {
      SameLinks(t.right.right);
    } else {
      LeastTakenOut(t.right);
    }
  }

  /** Lines 661-684: the least item of the right subtree becomes the root. */
  method LiftLeast(x: Item, ghost t: Tree<Item>) returns (item: Item)
    requires t.Node? && t.right.Node? && x == t.item && Sound(t) && Distinct(t)
    modifies Elements(t)`right, Elements(t)`left, Elements(t)`parent
    ensures item == Least(t.right) && item.parent == old(x.parent) && LeastLifted(t)
  {
    ElementsAllocated(t);
    LeastSpine(t.right);
    LeastLinks(t.right);
    var g := FindLeast(x.right, t.right);
    item := g;
    var right := item.right;
    var parent := item.parent;

    item.parent := x.parent;
    item.left := x;
    if x.right != item {
      TakeRight(item, x);
    }
    x.parent := item;
    x.right := null;
    if parent != x {
      HangLeft(parent, right);
    }
  }

  // ----- Removing an item

  /** What BalancedBTreeReplace does to every link of t when the greatest item of the left
      subtree takes the root's place. */
  twostate predicate GreatestInPlace(t: Tree<Item>)
    requires t.Node? && t.left.Node?
    reads *
  {
    var g := Greatest(t.left);
    && g.right == RootOf(t.right) && HangsFrom(t.right, g) && UntouchedBelow(t.right)
    && if t.left.right.Leaf? then g.left == RootOf(t.left.left) && Untouched(t.left.left)
       else g.left == t.left.item && t.left.item.parent == g && GreatestUnlinked(t.left)
  }

  twostate predicate LeastInPlace(t: Tree<Item>)
    requires t.Node? && t.right.Node?
    reads *
  {
    var g := Least(t.right);
    && g.left == RootOf(t.left) && HangsFrom(t.left, g) && UntouchedBelow(t.left)
    && if t.right.left.Leaf? then g.right == RootOf(t.right.right) && Untouched(t.right.right)
       else g.right == t.right.item && t.right.item.parent == g && LeastUnlinked(t.right)
  }

  /** The links of t's items are as they were, except perhaps where the root hangs. */
  twostate predicate UntouchedBelow(t: Tree<Item>)
    reads Elements(t)
  {
    forall n :: n in Elements(t) ==>
      && old(allocated(n)) && n.left == old(n.left) && n.right == old(n.right)
      && (n == RootOf(t) || n.parent == old(n.parent))
  }

  /** Lines 546-558: give the place of the greatest or least item of s to the subtree below it. */
  method Unhook(replace: Item, ghost s: Tree<Item>)
    requires s.Node? && Sound(s) && Distinct(s)
    requires (s.right.Node? && replace == Greatest(s)) || (s.left.Node? && replace == Least(s))
    modifies (Elements(s) - {replace})`left, (Elements(s) - {replace})`right, (Elements(s) - {replace})`parent
    ensures s.right.Node? && replace == Greatest(s) ==> GreatestUnlinked(s)
    ensures s.left.Node? && replace == Least(s) ==> LeastUnlinked(s)
    ensures s.item.parent == old(s.item.parent)
  {
    ElementsAllocated(s);
    GreatestSpine(s);
    GreatestLinks(s);
    LeastSpine(s);
    LeastLinks(s);
    if replace.parent.left == replace {
      replace.parent.left := replace.right;
      if replace.right != null {
        replace.right.parent := replace.parent;
      }
    } else if replace.parent.right == replace {
      replace.parent.right := replace.left;
      if replace.left != null {
        replace.left.parent := replace.parent;
      }
    }
  }

  /** Lines 559-566. */
  method TakeBoth(replace: Item, item: Item)
    requires replace != item && item.left != replace && item.left != item
    requires item.right != replace && item.right != item && (item.left != item.right || item.left == null)
    modifies replace`left, replace`right
    modifies (if item.left == null then {} else {item.left})`parent
    modifies (if item.right == null then {} else {item.right})`parent
    ensures replace.left == old(item.left) && (replace.left != null ==> replace.left.parent == replace)
    ensures replace.right == old(item.right) && (replace.right != null ==> replace.right.parent == replace)
  {
    TakeRight(replace, item);
    TakeLeft(replace, item);
  }

  /** Whether a removed root is replaced from its left subtree. */
  predicate FromLeft(t: Tree<Item>)
    requires t.Node?
  {
    Weight(t.left) > Weight(t.right)
  }

  /** What the two searches at the start of BalancedBTreeRemove come up with. */
  ghost function Replacement(t: Tree<Item>): Item?
    requires t.Node?
  {
    RootOf(Merge(t.left, t.right))
  }

  twostate predicate InPlace(t: Tree<Item>)
    requires t.Node? && Replacement(t) != null
    reads *
  {
    if FromLeft(t) then GreatestInPlace(t) else LeastInPlace(t)
  }

  /** Then the links spell out the merged subtrees. */
  twostate lemma {:induction false} InPlaceIsSound(t: Tree<Item>)
    requires t.Node? && Replacement(t) != null && old(Sound(t)) && Distinct(t)
    requires InPlace(t)
    ensures Sound(Merge(t.left, t.right))
  {
    if FromLeft(t) {
      SameLinks(t.right);
      if t.left.right.Leaf? {
        SameLinks(t.left.left);
      } else {
        GreatestTakenOut(t.left);
      }
    } else {
      SameLinks(t.left);
      if t.right.left.Leaf? {
        SameLinks(t.right.right);
      } else {
        LeastTakenOut(t.right);
      }
    }
  }

  /** Lines 545-566, for a replacement from the subtree s and its sibling. */
  method PullFrom(replace: Item, item: Item, ghost s: Tree<Item>, ghost sibling: Tree<Item>)
    requires s.Node? && Sound(s) && Distinct(s) && Elements(s) !! Elements(sibling)
    requires item !in Elements(s) + Elements(sibling) && replace in Elements(s) && replace != s.item
    requires || (item.left == RootOf(s) && item.right == RootOf(sibling))
             || (item.left == RootOf(sibling) && item.right == RootOf(s))
    requires (s.right.Node? && replace == Greatest(s)) || (s.left.Node? && replace == Least(s))
    modifies (Elements(s) + Elements(sibling))`left, (Elements(s) + Elements(sibling))`right
    modifies (Elements(s) + Elements(sibling))`parent
    ensures replace.left == item.left && replace.right == item.right
    ensures HangsFrom(s, replace) && HangsFrom(sibling, replace) && UntouchedBelow(sibling)
    ensures s.right.Node? && replace == Greatest(s) ==> GreatestUnlinked(s)
    ensures s.left.Node? && replace == Least(s) ==> LeastUnlinked(s)
  {
    ElementsAllocated(s);
    ElementsAllocated(sibling);
    Unhook(replace, s);
    TakeBoth(replace, item);
  }

  /** Lines 545-566: the replacement comes from further down. */
  method PullUp(item: Item, replace: Item, ghost t: Tree<Item>)
    requires t.Node? && item == t.item && Sound(t) && Distinct(t)
    requires replace == Replacement(t) && replace.parent != item
    modifies (Elements(t) - {item})`left, (Elements(t) - {item})`right, (Elements(t) - {item})`parent
    ensures InPlace(t)
  {
    if FromLeft(t) {
      GreatestSpine(t.left);
      GreatestLinks(t.left);
    } else {
      LeastSpine(t.right);
      LeastLinks(t.right);
    }
    PullFrom(replace, item, if FromLeft(t) then t.left else t.right, if FromLeft(t) then t.right else t.left);
  }

  /** Lines 544-581. */
  method PutInPlace(item: Item, replace: Item, ghost t: Tree<Item>)
    requires t.Node? && item == t.item && Sound(t) && Distinct(t)
    requires replace == Replacement(t)
    modifies (Elements(t) - {item})`left, (Elements(t) - {item})`right, (Elements(t) - {item})`parent
    ensures InPlace(t)
  {
    if replace.parent != item {
      PullUp(item, replace, t);
    } else {
      ElementsAllocated(t);
      if FromLeft(t) {
        GreatestSpine(t.left);
        GreatestLinks(t.left);
      } else {
        LeastSpine(t.right);
        LeastLinks(t.right);
      }
      if item.right == replace {
        TakeLeft(replace, item);
      } else if item.left == replace {
        TakeRight(replace, item);
      }
    }
  }

  /** Lines 544-583: the replacement takes over the item's children and parent. */
  method Supplant(item: Item, replace: Item, ghost t: Tree<Item>)
    requires t.Node? && item == t.item && Sound(t) && Distinct(t)
    requires replace == Replacement(t)
    modifies (Elements(t) - {item})`left, (Elements(t) - {item})`right, (Elements(t) - {item})`parent
    ensures Sound(Merge(t.left, t.right)) && replace.parent == old(item.parent)
  {
    MergeElements(t.left, t.right);
    PutInPlace(item, replace, t);
    replace.parent := item.parent;
    InPlaceIsSound(t);
  }

  /** Lines 609-611. */
  method Unlinked(item: Item)
    modifies item`left, item`right, item`parent
    ensures item.left == null && item.right == null && item.parent == null
  {
    item.left := null;
    item.right := null;
    item.parent := null;
  }
}
