/** util/balanced_btree.c: the tree, changed in place and proved against tree values. */
module BalancedBTree {
  import opened Basics
  import opened Shapes
  import opened KeyOrder
  import opened TreeLinks

  /** The items come in the order of their keys (equal keys may be neighbours). */
  ghost predicate Ascending(kind: KeyType, s: seq<Item>) {
    forall i, j :: 0 <= i < j < |s| ==> Compare(kind, s[i].key, s[j].key) <= 0
  }

  /** The tree's comparison orders the keys it may meet, and the items s are in that order. */
  ghost predicate Keyed(kind: KeyType, domain: iset<Key>, s: seq<Item>) {
    && Orders(kind, domain)
    && (kind.StringKey? ==> domain <= Texts())
    && (forall i :: 0 <= i < |s| ==> s[i].key in domain)
    && Ascending(kind, s)
  }

  /** The comparison a search for k makes at an item. */
  function Probe(kind: KeyType, k: Key, alternate: bool): Item -> int {
    (x: Item) => if alternate then CompareAlternate(kind, k, x.key) else Compare(kind, k, x.key)
  }

  lemma {:induction false} ProbeIsMonotone(kind: KeyType, domain: iset<Key>, k: Key, alternate: bool, s: seq<Item>)
    requires Keyed(kind, domain, s) && k in domain
    ensures Monotone(Probe(kind, k, alternate), s)
  {
    var probe := Probe(kind, k, alternate);
    forall i, j | 0 <= i < j < |s|
      ensures (probe(s[i]) < 0 ==> probe(s[j]) < 0) && (probe(s[j]) > 0 ==> probe(s[i]) > 0)
    {
      var a, b := s[i].key, s[j].key;
      if alternate && kind.StringKey? {
        PartialFollowsOrder(k.s, a.s, b.s);
      } else {
        assert Compare(kind, a, b) <= 0;
      }
    }
  }

  lemma {:induction false} AscendingInsert(kind: KeyType, s: seq<Item>, k: nat, item: Item)
    requires Ascending(kind, s) && k <= |s|
    requires forall i :: 0 <= i < k ==> Compare(kind, s[i].key, item.key) <= 0
    requires forall i :: k <= i < |s| ==> Compare(kind, item.key, s[i].key) <= 0
    ensures Ascending(kind, s[..k] + [item] + s[k..])
  {
  }

  lemma {:induction false} KeyedInsert(kind: KeyType, domain: iset<Key>, s: seq<Item>, k: nat, item: Item)
    requires Keyed(kind, domain, s) && item.key in domain && k <= |s|
    requires forall i :: 0 <= i < k ==> Probe(kind, item.key, false)(s[i]) >= 0
    requires forall i :: k <= i < |s| ==> Probe(kind, item.key, false)(s[i]) < 0
    ensures Keyed(kind, domain, s[..k] + [item] + s[k..])
  {
    forall i | 0 <= i < k ensures Compare(kind, s[i].key, item.key) <= 0 {
      assert Probe(kind, item.key, false)(s[i]) >= 0;
    }
    forall i | k <= i < |s| ensures Compare(kind, item.key, s[i].key) <= 0 {
      assert Probe(kind, item.key, false)(s[i]) < 0;
    }
    AscendingInsert(kind, s, k, item);
  }

  lemma {:induction false} InsertKeepsOrder(kind: KeyType, domain: iset<Key>, t: Tree<Item>, item: Item)
    requires Keyed(kind, domain, Inorder(t)) && item.key in domain
    ensures Keyed(kind, domain, Inorder(Insert(t, item, Probe(kind, item.key, false))))
  {
    var probe := Probe(kind, item.key, false);
    ProbeIsMonotone(kind, domain, item.key, false, Inorder(t));
    InsertInorder(t, item, probe);
    InsertIndexSplits(t, probe);
    KeyedInsert(kind, domain, Inorder(t), InsertIndex(t, probe), item);
  }

  /** The tree with the item linked in, unless the descent ends at an equal key. */
  ghost function Added(kind: KeyType, t: Tree<Item>, item: Item): Tree<Item> {
    if Accepts(t, Probe(kind, item.key, false)) then Insert(t, item, Probe(kind, item.key, false))
    else t
  }

  /** Where at most one item has an equal key, the new item is refused just when that item has no
      right child. */
  lemma AddRefusesExactly(kind: KeyType, domain: iset<Key>, t: Tree<Item>, item: Item)
    requires Keyed(kind, domain, Inorder(t)) && item.key in domain
    requires OneEqual(Probe(kind, item.key, false), Inorder(t))
    ensures Added(kind, t, item) == if EqualWithoutRight(t, Probe(kind, item.key, false)) then t
                                    else Insert(t, item, Probe(kind, item.key, false))
  {
    ProbeIsMonotone(kind, domain, item.key, false, Inorder(t));
    AcceptsExactly(t, Probe(kind, item.key, false));
  }

  lemma {:induction false} AddedKeeps(kind: KeyType, domain: iset<Key>, t: Tree<Item>, item: Item)
    requires Keyed(kind, domain, Inorder(t)) && item.key in domain
    requires Distinct(t) && item !in Elements(t)
    ensures Keyed(kind, domain, Inorder(Added(kind, t, item)))
    ensures Distinct(Added(kind, t, item))
    ensures Elements(Added(kind, t, item)) ==
            Elements(t) + if Accepts(t, Probe(kind, item.key, false)) then {item} else {}
  {
    InsertElements(t, item, Probe(kind, item.key, false));
    InsertKeepsOrder(kind, domain, t, item);
  }

  lemma KeyedCut(kind: KeyType, domain: iset<Key>, s: seq<Item>, k: nat)
    requires Keyed(kind, domain, s) && k < |s|
    ensures Keyed(kind, domain, Cut(s, k))
  {
  }

  /** What takes the place of a removed item is its neighbour on the heavier side, the next one when
      neither is, and a node whose sides were level stays level. */
  lemma {:induction false} ReplacementIsNeighbour(l: Tree<Item>, r: Tree<Item>)
    requires r.Node? || Weight(l) > Weight(r)
    ensures Merge(l, r).Node?
    ensures Merge(l, r).item == if Weight(l) > Weight(r) then Inorder(l)[Weight(l) - 1] else Inorder(r)[0]
    ensures -1 <= Weight(l) - Weight(r) <= 1 ==> -1 <= Lean(Merge(l, r)) <= 1
  {
    if Weight(l) > Weight(r) {
      DropGreatestInorder(l);
    } else {
      DropLeastInorder(r);
    }
  }

  lemma {:induction false} RemoveKeepsOrder(kind: KeyType, domain: iset<Key>, t: Tree<Item>, item: Item)
    requires Keyed(kind, domain, Inorder(t)) && Distinct(t) && item in Elements(t)
    ensures Keyed(kind, domain, Inorder(Removed(t, item)))
  {
    var k := RemoveInorder(t, item);
    KeyedCut(kind, domain, Inorder(t), k);
  }

  /** What a search in an ordered tree comes to. */
  lemma {:induction false} SearchOutcome(t: Tree<Item>, probe: Item -> int)
    requires Monotone(probe, Inorder(t))
    ensures match Search(t, probe)
            case Some(x) => x in Elements(t) && probe(x) == 0
            case None => forall x <- Elements(t) :: probe(x) != 0
    ensures forall n: nat :: Balanced(t) && Weight(t) < Pow2(n) ==> Comparisons(t, probe) <= n
  {
    SearchFinds(t, probe);
    if Search(t, probe).Some? {
      ElementsAreListed(t, Search(t, probe).value);
    } else {
      forall x | x in Elements(t) ensures probe(x) != 0 {
        ElementsAreListed(t, x);
      }
    }
    forall n: nat | Balanced(t) && Weight(t) < Pow2(n) ensures Comparisons(t, probe) <= n {
      SearchIsLogarithmic(t, probe, n);
    }
  }

  /** The item's key begins with the sought string up to letter case, or no item's does. */
  ghost predicate PrefixFound(item: Item?, items: set<Item>, key: Key) {
    && key.Text?
    && (item != null ==> item in items && item.key.Text? && Folded(key.s) <= Folded(item.key.s))
    && (item == null ==> forall x <- items :: x.key.Text? && !(Folded(key.s) <= Folded(x.key.s)))
  }

  /** In a tree of strings the alternate search finds some item whose key begins with the
      sought string up to letter case, whenever there is one. */
  lemma {:induction false} PrefixSearch(domain: iset<Key>, t: Tree<Item>, p: string)
    requires Keyed(StringKey, domain, Inorder(t)) && Text(p) in domain
    ensures match Search(t, Probe(StringKey, Text(p), true))
            case Some(x) => x in Elements(t) && x.key.Text? && Folded(p) <= Folded(x.key.s)
            case None => forall x <- Elements(t) :: x.key.Text? && !(Folded(p) <= Folded(x.key.s))
  {
    var probe := Probe(StringKey, Text(p), true);
    ProbeIsMonotone(StringKey, domain, Text(p), true, Inorder(t));
    SearchOutcome(t, probe);
    forall x | x in Elements(t)
      ensures x.key.Text? && (probe(x) == 0 <==> Folded(p) <= Folded(x.key.s))
    {
      ElementsAreListed(t, x);
      PartialIsPrefix(p, x.key.s);
    }
  }

  class BTree {
    const keyType: KeyType
    var root: Item?

    /** The tree that the links spell out, and the keys it is meant for. */
    ghost var shape: Tree<Item>
    ghost const domain: iset<Key>

    ghost predicate Valid()
      reads this`root, this`shape
      reads Elements(shape)`left, Elements(shape)`right, Elements(shape)`parent, Elements(shape)`btree
    {
      && At(Top, shape)
      && Keyed(keyType, domain, Inorder(shape))
      && forall x :: x in Elements(shape) ==> x.btree == this
    }

    /** BalancedBTreeCreate. */
    constructor (keyType: KeyType, ghost domain: iset<Key>)
      requires Keyed(keyType, domain, [])
      ensures Valid() && shape == Leaf && this.keyType == keyType && this.domain == domain
    {
      this.keyType, this.domain := keyType, domain;
      root, shape := null, Leaf;
    }

    lemma {:induction false} AtPlug(p: Path<Item>, t: Tree<Item>)
      ensures At(p, t) <==> At(Top, Plug(p, t))
    {
      PlugLinked(p, t, root);
      PlugElements(p, t);
    }

    // ----- Searching

    /** BalancedBTreeFind: some item whose key matches, or null when there is none. */
    method Find(key: Key, alternate: bool) returns (item: Item?, ghost steps: nat)
      requires Valid() && key in domain
      ensures item != null ==> item in Elements(shape) && Probe(keyType, key, alternate)(item) == 0
      ensures item == null ==> forall x <- Elements(shape) :: Probe(keyType, key, alternate)(x) != 0
      ensures keyType.StringKey? && alternate ==> PrefixFound(item, Elements(shape), key)
      ensures steps == Comparisons(shape, Probe(keyType, key, alternate))
      ensures forall k: nat :: Balanced(shape) && Weight(shape) < Pow2(k) ==> steps <= k
    {
      ghost var probe := Probe(keyType, key, alternate);
      item := root;
      steps := 0;
      ghost var t := shape;
      var found := false;
      while item != null && !found
        invariant item == RootOf(t) && Sound(t)
        invariant found ==> item != null && probe(item) == 0 && Search(shape, probe) == Some(t.item)
        invariant !found ==> Search(t, probe) == Search(shape, probe)
        invariant steps + (if found then 0 else Comparisons(t, probe)) == Comparisons(shape, probe)
        decreases !found, t
      {
        steps := steps + 1;
        var res := if alternate then CompareAlternate(keyType, key, item.key) else Compare(keyType, key, item.key);
        if res == 0 {
          found := true;
        } else if res < 0 {
          item, t := item.left, t.left;
        } else {
          item, t := item.right, t.right;
        }
      }
      ProbeIsMonotone(keyType, domain, key, alternate, Inorder(shape));
      SearchOutcome(shape, probe);
      if keyType.StringKey? && alternate {
        PrefixSearch(domain, shape, key.s);
      }
    }

    /** BalancedBTreeFindParent: the last item met on the way down, and the place below it. */
    method FindParent(item: Item) returns (parent: Item?, ghost p: Path<Item>)
      requires At(Top, shape)
      ensures parent == ParentOf(p) && At(p, Leaf) && Plug(p, Leaf) == shape
      ensures var probe := Probe(keyType, item.key, false);
              && Insert(shape, item, probe) == Plug(p, Node(Leaf, item, Leaf))
              && (p.InLeft? ==> probe(p.item) < 0) && (p.InRight? ==> probe(p.item) >= 0)
              && (Accepts(shape, probe) <==> p.InRight? ==> probe(p.item) != 0)
    {
      ghost var probe := Probe(keyType, item.key, false);
      parent := null;
      p := Top;
      var x := root;
      ghost var t := shape;
      while x != null
        invariant x == RootOf(t) && parent == ParentOf(p) && At(p, t) && Plug(p, t) == shape
        invariant Insert(shape, item, probe) == Plug(p, Insert(t, item, probe))
        invariant (p.InLeft? ==> probe(p.item) < 0) && (p.InRight? ==> probe(p.item) >= 0)
        invariant Accepts(shape, probe) <==> Accepts(t, probe) && (t.Leaf? && p.InRight? ==> probe(p.item) != 0)
        decreases t
      {
        parent := x;
        StepLeft(p, t);
        StepRight(p, t);
        if Compare(keyType, item.key, x.key) < 0 {
          p, t, x := InLeft(p, t.item, t.right), t.left, x.left;
        } else {
          p, t, x := InRight(p, t.item, t.left), t.right, x.right;
        }
      }
    }

    /** The subtree t sits at the place p of this tree. */
    ghost predicate At(p: Path<Item>, t: Tree<Item>)
      reads this`root
      reads PathElements(p)`left, PathElements(p)`right, PathElements(p)`parent
      reads Elements(t)`left, Elements(t)`right, Elements(t)`parent
    {
      && LinkedPath(p, RootOf(t), root) && Linked(t, RootOf(t), ParentOf(p))
      && DistinctPath(p) && Distinct(t) && PathElements(p) !! Elements(t)
    }

    /** Lines 687-695: hang a new root of a subtree where the old one was. */
    method Rehang(item: Item, x: Item, ghost p: Path<Item>)
      requires LinkedPath(p, x, root) && item.parent == ParentOf(p)
      requires DistinctPath(p) && x !in PathElements(p) && item !in PathElements(p)
      modifies this`root, PathElements(p)`left, PathElements(p)`right
      ensures LinkedPath(p, item, root)
    {
      if item.parent != null {
        if item.parent.left == x {
          item.parent.left := item;
        } else {
          item.parent.right := item;
        }
      } else {
        root := item;
      }
    }

    /** One pass of the rebalancing loop, shifting to the right. */
    method ShiftToRight(x: Item, ghost p: Path<Item>, ghost t: Tree<Item>) returns (item: Item)
      requires t.Node? && t.left.Node? && x == t.item && At(p, t)
      modifies this`root, Elements(t)`left, Elements(t)`right, Elements(t)`parent
      modifies PathElements(p)`left, PathElements(p)`right
      ensures ShiftRight(t).item == item && At(p, ShiftRight(t))
    {
      ShiftRightKeeps(t);
      ElementsAllocated(t);
      PathAllocated(p);
      item := LiftGreatest(x, t);
      GreatestLiftedIsSound(t);
      Rehang(item, x, p);
    }

    /** One pass of the rebalancing loop, shifting to the left. */
    method ShiftToLeft(x: Item, ghost p: Path<Item>, ghost t: Tree<Item>) returns (item: Item)
      requires t.Node? && t.right.Node? && x == t.item && At(p, t)
      modifies this`root, Elements(t)`left, Elements(t)`right, Elements(t)`parent
      modifies PathElements(p)`left, PathElements(p)`right
      ensures ShiftLeft(t).item == item && At(p, ShiftLeft(t))
    {
      ShiftLeftKeeps(t);
      ElementsAllocated(t);
      PathAllocated(p);
      item := LiftLeast(x, t);
      LeastLiftedIsSound(t);
      Rehang(item, x, p);
    }

    /** A place moves down into a subtree, and back up. */
    lemma {:induction false} StepLeft(p: Path<Item>, t: Tree<Item>)
      requires t.Node?
      ensures At(p, t) <==> At(InLeft(p, t.item, t.right), t.left)
    {
    }

    lemma {:induction false} StepRight(p: Path<Item>, t: Tree<Item>)
      requires t.Node?
      ensures At(p, t) <==> At(InRight(p, t.item, t.left), t.right)
    {
    }

    function LeanAt(x: Item, ghost p: Path<Item>, ghost t: Tree<Item>): (res: int)
      requires x == RootOf(t) && At(p, t)
      reads this`root
      reads PathElements(p)`left, PathElements(p)`right, PathElements(p)`parent
      reads Elements(t)`left, Elements(t)`right, Elements(t)`parent
      ensures res == Lean(t)
    {
      WeightOf(x.left, t.left) - WeightOf(x.right, t.right)
    }

    /** The loop of BalancedBTreeRebalance, on the subtree t at the place p. */
    method SettleAt(x: Item, ghost p: Path<Item>, ghost t: Tree<Item>) returns (top: Item)
      requires x == RootOf(t) && At(p, t)
      modifies this`root
      modifies Elements(t)`left, Elements(t)`right, Elements(t)`parent
      modifies PathElements(p)`left, PathElements(p)`right
      ensures At(p, Settle(t)) && top == Settle(t).item
    {
      top := x;
      ghost var s := t;
      var res := LeanAt(x, p, t);
      while res < -1 || res > 1
        invariant s.Node? && s.item == top && At(p, s) && Elements(s) == Elements(t)
        invariant Settle(s) == Settle(t)
        invariant res == Lean(s)
        decreases if res >= 0 then res else -res
      {
        if res > 1 {
          top := ShiftToRight(top, p, s);
          ShiftRightKeeps(s);
          s := ShiftRight(s);
        } else {
          top := ShiftToLeft(top, p, s);
          ShiftLeftKeeps(s);
          s := ShiftLeft(s);
        }
        res := LeanAt(top, p, s);
      }
    }

    /** BalancedBTreeRebalance. */
    method RebalanceAt(x: Item?, ghost p: Path<Item>, ghost t: Tree<Item>)
      requires x == RootOf(t) && At(p, t)
      modifies this`root
      modifies Elements(t)`left, Elements(t)`right, Elements(t)`parent
      modifies PathElements(p)`left, PathElements(p)`right, PathElements(p)`parent
      ensures At(p, Rebalance(t))
      decreases Weight(t)
    {
      if x == null {
        return;
      }
      var top := SettleAt(x, p, t);
      ghost var s := Settle(t);
      assert Weight(s) == Weight(t);
      StepLeft(p, s);
      RebalanceAt(top.left, InLeft(p, top, s.right), s.left);
      ghost var l := Rebalance(s.left);
      StepLeft(p, Node(l, top, s.right));
      StepRight(p, Node(l, top, s.right));
      RebalanceAt(top.right, InRight(p, top, l), s.right);
      StepRight(p, Node(l, top, Rebalance(s.right)));
    }

    // ----- Adding and removing

    ghost function Rebalanced(t: Tree<Item>, rebalance: bool): Tree<Item> {
      if rebalance then Rebalance(t) else t
    }

    method RebalanceRoot()
      requires At(Top, shape)
      modifies this`root, this`shape
      modifies Elements(shape)`left, Elements(shape)`right, Elements(shape)`parent
      ensures At(Top, shape) && shape == Rebalance(old(shape))
    {
      ElementsAllocated(shape);
      RebalanceAt(root, Top, shape);
      shape := Rebalance(shape);
    }

    /** Lines 209-211 and 291-293, and an Add or Remove of no item at all. */
    method RebalanceAll(rebalance: bool)
      requires Valid()
      modifies this`root, this`shape
      modifies Elements(shape)`left, Elements(shape)`right, Elements(shape)`parent
      ensures Valid() && shape == Rebalanced(old(shape), rebalance)
    {
      if rebalance {
        ElementsAllocated(shape);
        RebalanceRoot();
      }
    }

    /** Lines 178-207: hang the new item below the place the descent ended at. */
    method Hang(item: Item, parent: Item?, ghost p: Path<Item>) returns (ghost linked: bool)
      requires At(p, Leaf) && parent == ParentOf(p)
      requires item !in PathElements(p) && item.parent == parent && item.left == null && item.right == null
      requires p.InLeft? ==> Compare(keyType, item.key, p.item.key) < 0
      requires p.InRight? ==> Compare(keyType, item.key, p.item.key) >= 0
      modifies this`root, PathElements(p)`left, PathElements(p)`right
      ensures linked <==> p.InRight? ==> Compare(keyType, item.key, p.item.key) != 0
      ensures At(p, if linked then Node(Leaf, item, Leaf) else Leaf)
    {
      PathAllocated(p);
      linked := true;
      if parent == null {
        root := item;
      } else {
        var res := Compare(keyType, item.key, parent.key);
        if res > 0 {
          parent.right := item;
        } else if res < 0 {
          parent.left := item;
        } else {
          linked := false;
        }
      }
    }

    /** Lines 172-207 of BalancedBTreeAdd. */
    method Link(item: Item)
      requires At(Top, shape) && item !in Elements(shape)
      modifies this`root, item`left, item`right, item`parent, item`btree
      modifies Elements(shape)`left, Elements(shape)`right
      ensures At(Top, Added(keyType, shape, item)) && item.btree == this
    {
      ElementsAllocated(shape);
      item.btree := this;
      item.left := null;
      item.right := null;
      var parent, p := FindParent(item);
      PlugElements(p, Leaf);
      item.parent := parent;
      ghost var linked := Hang(item, parent, p);
      AtPlug(p, if linked then Node(Leaf, item, Leaf) else Leaf);
    }

    /** BalancedBTreeAdd. */
    method Add(item: Item?, rebalance: bool)
      requires Valid()
      requires item != null ==> item !in Elements(shape) && item.key in domain
      modifies this`root, this`shape
      modifies Elements(shape)`left, Elements(shape)`right, Elements(shape)`parent
      modifies (if item == null then {} else {item})`left
      modifies (if item == null then {} else {item})`right
      modifies (if item == null then {} else {item})`parent
      modifies (if item == null then {} else {item})`btree
      ensures Valid()
      ensures shape == Rebalanced(if item == null then old(shape) else Added(keyType, old(shape), item), rebalance)
      ensures Inorder(shape) == Inorder(if item == null then old(shape) else Added(keyType, old(shape), item))
      ensures rebalance ==> Balanced(shape)
      ensures !rebalance && item == null ==> shape == old(shape)
      ensures item != null ==> item.btree == this
    {
      if item != null {
        AddedKeeps(keyType, domain, shape, item);
        ElementsAllocated(shape);
        Link(item);
        shape := Added(keyType, shape, item);
      }
      RebalanceAll(rebalance);
    }

    /** Lines 596-605: nothing takes the place of a childless item. */
    method Vacate(item: Item, ghost p: Path<Item>)
      requires LinkedPath(p, item, root) && item.parent == ParentOf(p)
      requires DistinctPath(p) && item !in PathElements(p)
      modifies this`root, PathElements(p)`left, PathElements(p)`right
      ensures LinkedPath(p, null, root)
    {
      PathAllocated(p);
      if item.parent == null {
        root := null;
      } else {
        if item.parent.left == item {
          item.parent.left := null;
        } else {
          item.parent.right := null;
        }
      }
    }

    /** Lines 543-593: the replacement moves to the item's place, and the parent points to it. */
    method Substitute(item: Item, replace: Item, ghost p: Path<Item>, ghost t: Tree<Item>)
      requires At(p, t) && t.Node? && item == t.item
      requires replace == Replacement(t)
      modifies this`root, PathElements(p)`left, PathElements(p)`right
      modifies Elements(t)`left, Elements(t)`right, Elements(t)`parent
      ensures At(p, Merge(t.left, t.right))
    {
      ElementsAllocated(t);
      PathAllocated(p);
      MergeElements(t.left, t.right);
      Supplant(item, replace, t);
      Rehang(replace, item, p);
    }

    /** BalancedBTreeReplace. */
    method Replace(item: Item, replace: Item?, ghost p: Path<Item>, ghost t: Tree<Item>)
      requires At(p, t) && t.Node? && item == t.item
      requires replace == Replacement(t)
      modifies this`root, PathElements(p)`left, PathElements(p)`right
      modifies Elements(t)`left, Elements(t)`right, Elements(t)`parent
      ensures At(p, Merge(t.left, t.right))
      ensures item.left == null && item.right == null && item.parent == null
    {
      ElementsAllocated(t);
      PathAllocated(p);
      MergeElements(t.left, t.right);
      if replace != null {
        Substitute(item, replace, p, t);
      } else {
        Vacate(item, p);
      }
      assert At(p, Merge(t.left, t.right)) && item !in Elements(Merge(t.left, t.right));
      ElementsAllocated(Merge(t.left, t.right));
      Unlinked(item);
    }

    /** Lines 274-289 of BalancedBTreeRemove. */
    method Unlink(item: Item)
      requires At(Top, shape) && item in Elements(shape)
      modifies this`root, item`btree
      modifies Elements(shape)`left, Elements(shape)`right, Elements(shape)`parent
      ensures At(Top, Removed(shape, item)) && item.btree == null
      ensures item.left == null && item.right == null && item.parent == null
    {
      ghost var p, t := PlaceOf(Top, shape, item);
      AtPlug(p, t);
      RemoveAtPlace(p, t, item);
      PlugElements(p, t);
      PathAllocated(p);
      ElementsAllocated(t);
      var replace: Item?;
      if WeightOf(item.left, t.left) > WeightOf(item.right, t.right) {
        replace := FindGreatest(item.left, t.left);
      } else {
        replace := FindLeast(item.right, t.right);
      }
      Replace(item, replace, p, t);
      AtPlug(p, Merge(t.left, t.right));
      item.btree := null;
    }

    /** BalancedBTreeRemove. */
    method Remove(item: Item?, rebalance: bool)
      requires Valid()
      requires item != null && item.btree == this ==> item in Elements(shape)
      modifies this`root, this`shape
      modifies (if item == null then {} else {item})`btree
      modifies Elements(shape)`left, Elements(shape)`right, Elements(shape)`parent
      ensures Valid()
      ensures item == null ==> shape == Rebalanced(old(shape), rebalance)
      ensures rebalance && (item == null || old(item.btree) == this) ==> Balanced(shape)
      ensures !rebalance && item == null ==> shape == old(shape)
      ensures item != null && old(item.btree) == this ==>
                && shape == Rebalanced(Removed(old(shape), item), rebalance)
                && item.btree == null && item.left == null && item.right == null && item.parent == null
      ensures item != null && old(item.btree) != this ==> shape == old(shape) && item.btree == old(item.btree)
    {
      if item != null && item.btree != this {
        return;
      }
      if item != null {
        ElementsAllocated(shape);
        RemoveKeepsOrder(keyType, domain, shape, item);
        RemoveElements(shape, item);
        Unlink(item);
        shape := Removed(shape, item);
      }
      RebalanceAll(rebalance);
    }

    // ----- Walking

    /** BalancedBTreeUnvisit. */
    method Unvisit(item: Item?, ghost t: Tree<Item>)
      requires item == RootOf(t) && Sound(t)
      modifies Elements(t)`visited
      ensures forall x :: x in Elements(t) ==> x.visited == 0
      decreases t
    {
      if item == null {
        return;
      }
      ElementsAllocated(t);
      item.visited := 0;
      Unvisit(item.left, t.left);
      Unvisit(item.right, t.right);
    }

    /** Exactly the first k items of the walk have been visited. */
    ghost predicate VisitedUpTo(k: nat)
      reads this`shape, Inorder(shape)`visited
    {
      k <= |Inorder(shape)| && forall i :: 0 <= i < |Inorder(shape)| ==> (Inorder(shape)[i].visited > 0 <==> i < k)
    }

    /** BalancedBTreeClearVisited. */
    method ClearVisited()
      requires At(Top, shape)
      modifies Elements(shape)`visited
      ensures VisitedUpTo(0)
    {
      Unvisit(root, shape);
      forall i | 0 <= i < |Inorder(shape)| ensures Inorder(shape)[i].visited == 0 {
        ElementsAreListed(shape, Inorder(shape)[i]);
      }
    }

    /** Where the loop of FindNext stands when it looks at the root of t: first at the k-th
        item of the walk itself, later at items whose subtree the k-th item ends. */
    ghost predicate Cursor(p: Path<Item>, t: Tree<Item>, k: nat, first: bool)
      reads this`root, this`shape
      reads PathElements(p)`left, PathElements(p)`right, PathElements(p)`parent
      reads Elements(t)`left, Elements(t)`right, Elements(t)`parent
    {
      && At(p, t) && Plug(p, t) == shape && t.Node?
      && if first then |Before(p)| + |Inorder(t.left)| == k else |Before(p)| + |Inorder(t)| == k + 1
    }

    /** Line 872, at the j-th item of the walk. */
    method Mark(x: Item, ghost j: nat, ghost k: nat)
      requires Distinct(shape) && VisitedUpTo(k) && j <= k && j < |Inorder(shape)| && x == Inorder(shape)[j]
      modifies x`visited
      ensures VisitedUpTo(if j == k then k + 1 else k)
    {
      forall i | 0 <= i < |Inorder(shape)| && i != j ensures Inorder(shape)[i] != x {
        ListedOnce(shape, if i < j then i else j, if i < j then j else i);
      }
      x.visited := x.visited + 1;
    }

    lemma {:induction false} IndexOfCursor(p: Path<Item>, t: Tree<Item>, k: nat, first: bool) returns (j: nat)
      requires Cursor(p, t, k, first)
      ensures Distinct(shape) && j < |Inorder(shape)| && Inorder(shape)[j] == t.item
      ensures if first then j == k else j < k + 1
    {
      PlugElements(p, t);
      Neighbours(p, t);
      j := |Before(p)| + |Inorder(t.left)|;
    }

    /** The right side of the item the loop looks at: next in the walk, or all visited. */
    lemma {:induction false} RightSide(p: Path<Item>, t: Tree<Item>, k: nat, first: bool)
      requires Cursor(p, t, k, first) && VisitedUpTo(k + 1) && t.right.Node?
      ensures t.right.item.visited == 0 <==> first
      ensures first ==> k + 1 < |Inorder(shape)| && Least(t.right) == Inorder(shape)[k + 1]
    {
      Neighbours(p, t);
    }

    /** Lines 874-878: down to the least item on the right, unless that side is done; else up. */
    method Move(x: Item, ghost p: Path<Item>, ghost t: Tree<Item>, ghost k: nat, ghost first: bool)
      returns (y: Item?)
      requires Cursor(p, t, k, first) && x == t.item && VisitedUpTo(k + 1)
      ensures first && t.right.Node? ==> k + 1 < |Inorder(shape)| && y == Inorder(shape)[k + 1]
      ensures !(first && t.right.Node?) ==> y == ParentOf(p)
    {
      if t.right.Node? {
        RightSide(p, t, k, first);
      }
      if x.right != null && x.right.visited == 0 {
        y := FindLeast(x.right, t.right);
      } else {
        y := x.parent;
      }
    }

    /** Lines 872-878. */
    method Step(x: Item, ghost p: Path<Item>, ghost t: Tree<Item>, ghost k: nat, ghost first: bool)
      returns (y: Item?)
      requires Cursor(p, t, k, first) && x == t.item && VisitedUpTo(if first then k else k + 1)
      modifies x`visited
      ensures Cursor(p, t, k, first) && VisitedUpTo(k + 1)
      ensures first && t.right.Node? ==> k + 1 < |Inorder(shape)| && y == Inorder(shape)[k + 1]
      ensures !(first && t.right.Node?) ==> y == ParentOf(p)
    {
      ghost var j := IndexOfCursor(p, t, k, first);
      ListAllocated(shape);
      PathAllocated(p);
      ElementsAllocated(t);
      Mark(x, j, if first then k else k + 1);
      y := Move(x, p, t, k, first);
    }

    /** Going up from a finished subtree: the item above is the next one of the walk, or it
        has been visited and its own subtree is finished too. */
    lemma {:induction false} Climb(p: Path<Item>, t: Tree<Item>, k: nat, first: bool)
      requires Cursor(p, t, k, first) && VisitedUpTo(k + 1) && (first ==> t.right.Leaf?)
      ensures p.Top? ==> k + 1 == |Inorder(shape)|
      ensures p.InLeft? ==> k + 1 < |Inorder(shape)| && p.item == Inorder(shape)[k + 1] && p.item.visited == 0
      ensures p.InRight? ==> Cursor(p.up, Node(p.side, p.item, t), k, false) && p.item.visited > 0
    {
      Neighbours(p, t);
      if p.InRight? {
        StepRight(p.up, Node(p.side, p.item, t));
        assert |Before(p)| - 1 < k + 1;
      }
    }

    /** BalancedBTreeFindNext, called on the item the walk has reached. */
    method FindNext(item: Item, ghost k: nat) returns (next: Item?)
      requires At(Top, shape) && VisitedUpTo(k) && k < |Inorder(shape)| && item == Inorder(shape)[k]
      modifies Elements(shape)`visited
      ensures VisitedUpTo(k + 1)
      ensures next == if k + 1 < |Inorder(shape)| then Inorder(shape)[k + 1] else null
    {
      ghost var p, t := PlaceOfIndex(Top, shape, k);
      AtPlug(p, t);
      next := null;
      var x: Item? := item;
      var found := false;
      ghost var first := true;
      while x != null && !found
        invariant VisitedUpTo(if first then k else k + 1)
        invariant !found && x != null ==> Cursor(p, t, k, first) && x == t.item
        invariant !found ==> next == null && (x == null ==> k + 1 == |Inorder(shape)|)
        invariant found ==> k + 1 < |Inorder(shape)| && next == Inorder(shape)[k + 1]
        invariant found || x == null ==> !first
        decreases !found, if x == null then 0 else 1, |Inorder(shape)| - |Inorder(t)|
      {
        PlugElements(p, t);
        Neighbours(p, t);
        x := Step(x, p, t, k, first);
        if !(first && t.right.Node?) {
          Climb(p, t, k, first);
          if p.InRight? {
            p, t := p.up, Node(p.side, p.item, t);
            Neighbours(p, t);
          }
        }
        first := false;
        if x != null && x.visited == 0 {
          next := x;
          found := true;
        }
      }
    }

    /** How objectTypeFindFirst begins a walk. */
    method FindFirst() returns (x: Item?)
      requires At(Top, shape)
      modifies Elements(shape)`visited
      ensures VisitedUpTo(0) && x == if |Inorder(shape)| > 0 then Inorder(shape)[0] else null
    {
      ElementsAllocated(shape);
      ListAllocated(shape);
      ClearVisited();
      x := FindLeast(root, shape);
      if shape.Node? {
        DropLeastInorder(shape);
      }
    }

    /** The whole walk of objectTypeFindFirst and objectTypeFindNext: every item once, in order. */
    method Walk() returns (items: seq<Item>)
      requires At(Top, shape)
      modifies Elements(shape)`visited
      ensures items == Inorder(shape)
    {
      ElementsAllocated(shape);
      ghost var s := Inorder(shape);
      var x := FindFirst();
      items := [];
      while x != null
        invariant At(Top, shape) && VisitedUpTo(|items|)
        invariant items == s[..|items|]
        invariant x == if |items| < |s| then s[|items|] else null
        decreases |s| - |items|
      {
        var reached: Item := x;
        x := FindNext(reached, |items|);
        TakeOneMore(s, |items|);
        items := items + [reached];
      }
    }
  }

  // ----- Runs

  datatype Op =
    | AddOp(item: Item, rebalance: bool)
    | RemoveOp(item: Item, rebalance: bool)
    | RebalanceOp

  /** The items in the tree after an operation, and after a run. */
  ghost function Effect(op: Op, s: set<Item>): set<Item> {
    match op
    case AddOp(x, _) => s + {x}
    case RemoveOp(x, _) => s - {x}
    case RebalanceOp => s
  }

  ghost function After(ops: seq<Op>, s: set<Item>): set<Item> {
    if ops == [] then s else After(ops[1..], Effect(ops[0], s))
  }

  /** Add items with fresh keys only; remove only items that are there. */
  ghost predicate LegalOp(kind: KeyType, domain: iset<Key>, op: Op, s: set<Item>) {
    match op
    case AddOp(x, _) => x !in s && x.key in domain && forall y <- s :: Compare(kind, x.key, y.key) != 0
    case RemoveOp(x, _) => x in s
    case RebalanceOp => true
  }

  ghost predicate Legal(kind: KeyType, domain: iset<Key>, ops: seq<Op>, s: set<Item>) {
    ops != [] ==> LegalOp(kind, domain, ops[0], s) && Legal(kind, domain, ops[1..], Effect(ops[0], s))
  }

  ghost function ItemOf(op: Op): set<Item> {
    if op.RebalanceOp? then {} else {op.item}
  }

  ghost function Touched(ops: seq<Op>): set<Item> {
    if ops == [] then {} else ItemOf(ops[0]) + Touched(ops[1..])
  }

  /** The last thing a run does with an item: true for adding it, false for removing it. */
  ghost function LastWord(ops: seq<Op>, x: Item): Option<bool> {
    if ops == [] then None
    else if LastWord(ops[1..], x).Some? then LastWord(ops[1..], x)
    else if ops[0].RebalanceOp? || ops[0].item != x then None
    else Some(ops[0].AddOp?)
  }

  /** An item is in the tree exactly when it was added and not removed since. */
  lemma {:induction false} AfterByLastWord(ops: seq<Op>, s: set<Item>, x: Item)
    ensures x in After(ops, s) <==>
            match LastWord(ops, x) case Some(added) => added case None => x in s
    decreases |ops|
  {
    if ops != [] {
      AfterByLastWord(ops[1..], Effect(ops[0], s), x);
    }
  }

  /** No two items have keys that compare equal. */
  ghost predicate Unique(kind: KeyType, s: set<Item>) {
    forall x, y :: x in s && y in s && x != y ==> Compare(kind, x.key, y.key) != 0
  }

  ghost predicate KeysIn(domain: iset<Key>, s: set<Item>) {
    forall x <- s :: x.key in domain
  }

  lemma {:induction false} LegalOpKeepsUnique(kind: KeyType, domain: iset<Key>, op: Op, s: set<Item>)
    requires Orders(kind, domain) && KeysIn(domain, s) && Unique(kind, s) && LegalOp(kind, domain, op, s)
    ensures KeysIn(domain, Effect(op, s)) && Unique(kind, Effect(op, s))
  {
  }

  /** With unique keys a search has at most one answer. */
  lemma OneAnswer(kind: KeyType, domain: iset<Key>, s: set<Item>, k: Key, x: Item, y: Item)
    requires Orders(kind, domain) && k in domain && Unique(kind, s) && KeysIn(domain, s)
    requires x in s && y in s && Compare(kind, k, x.key) == 0 && Compare(kind, k, y.key) == 0
    ensures x == y
  {
    assert Compare(kind, x.key, k) == 0 && Compare(kind, y.key, k) == 0;
  }

  lemma {:induction false} FreshKeyIsAccepted(kind: KeyType, t: Tree<Item>, x: Item)
    requires forall y <- Elements(t) :: Compare(kind, x.key, y.key) != 0
    ensures Accepts(t, Probe(kind, x.key, false))
  {
    forall y | y in Inorder(t) ensures Probe(kind, x.key, false)(y) != 0 {
      ElementsAreListed(t, y);
    }
    FreshIsAccepted(t, Probe(kind, x.key, false));
  }

  method Perform(tree: BTree, op: Op)
    requires tree.Valid() && LegalOp(tree.keyType, tree.domain, op, Elements(tree.shape))
    modifies tree`root, tree`shape
    modifies Elements(tree.shape), ItemOf(op)
    ensures tree.Valid() && Elements(tree.shape) == Effect(op, old(Elements(tree.shape)))
    ensures op.RebalanceOp? || op.rebalance ==> Balanced(tree.shape)
  {
    match op
    case AddOp(x, rebalance) =>
      FreshKeyIsAccepted(tree.keyType, tree.shape, x);
      AddedKeeps(tree.keyType, tree.domain, tree.shape, x);
      tree.Add(x, rebalance);
    case RemoveOp(x, rebalance) =>
      RemoveElements(tree.shape, x);
      tree.Remove(x, rebalance);
    case RebalanceOp =>
      tree.Add(null, true);
  }

  /** Every legal run, rebalancing or not, keeps a well-linked search tree that holds exactly
      the items the run leaves, under keys that stay unique. */
  method Run(tree: BTree, ops: seq<Op>)
    requires tree.Valid() && Legal(tree.keyType, tree.domain, ops, Elements(tree.shape))
    modifies tree`root, tree`shape
    modifies Elements(tree.shape), Touched(ops)
    ensures tree.Valid() && Elements(tree.shape) == After(ops, old(Elements(tree.shape)))
    decreases |ops|
  {
    if ops != [] {
      Perform(tree, ops[0]);
      Run(tree, ops[1..]);
    }
  }

  lemma {:induction false} RunKeepsUnique(kind: KeyType, domain: iset<Key>, ops: seq<Op>, s: set<Item>)
    requires Orders(kind, domain) && KeysIn(domain, s) && Unique(kind, s) && Legal(kind, domain, ops, s)
    ensures KeysIn(domain, After(ops, s)) && Unique(kind, After(ops, s))
    decreases |ops|
  {
    if ops != [] {
      LegalOpKeepsUnique(kind, domain, ops[0], s);
      RunKeepsUnique(kind, domain, ops[1..], Effect(ops[0], s));
    }
  }

  /** A new tree after any legal run is a finite map: looking a key up finds the one item added
      under it and not removed since, or null when there is none. */
  method RunAndFind(kind: KeyType, ghost domain: iset<Key>, ops: seq<Op>, key: Key) returns (item: Item?)
    requires Keyed(kind, domain, []) && Legal(kind, domain, ops, {}) && key in domain
    modifies Touched(ops)
    ensures item != null ==> LastWord(ops, item) == Some(true) && Compare(kind, key, item.key) == 0
    ensures forall x: Item :: LastWord(ops, x) == Some(true) && Compare(kind, key, x.key) == 0 ==> x == item
  {
    var tree := new BTree(kind, domain);
    Run(tree, ops);
    ghost var steps;
    item, steps := tree.Find(key, false);
    RunKeepsUnique(kind, domain, ops, {});
    if item != null {
      AfterByLastWord(ops, {}, item);
    }
    forall x: Item | LastWord(ops, x) == Some(true) && Compare(kind, key, x.key) == 0 ensures x == item {
      AfterByLastWord(ops, {}, x);
      assert Probe(kind, key, false)(x) == 0;
      OneAnswer(kind, domain, After(ops, {}), key, x, item);
    }
  }
}
