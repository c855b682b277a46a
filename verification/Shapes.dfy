/** The shape of a search tree as a value, and what util/balanced_btree.c does to it.

    The tree code moves pointers; this module says what those moves do to the tree they
    spell out, so that every fact that is not about pointers (the order of the items, the
    weights, the height, what a search finds) is proved once, on values.  Module
    BalancedBTree proves that the pointer code performs exactly these operations.
 */
module Shapes {
  import opened Basics

  datatype Tree<T> = Leaf | Node(left: Tree<T>, item: T, right: Tree<T>)

  /** The items in the order of a left-to-right walk. */
  function Inorder<T>(t: Tree<T>): seq<T> {
    match t
    case Leaf => []
    case Node(l, x, r) => Inorder(l) + [x] + Inorder(r)
  }

  ghost function Elements<T>(t: Tree<T>): set<T> {
    match t
    case Leaf => {}
    case Node(l, x, r) => Elements(l) + {x} + Elements(r)
  }

  /** No item occurs twice. */
  ghost predicate Distinct<T>(t: Tree<T>) {
    match t
    case Leaf => true
    case Node(l, x, r) =>
      && Distinct(l) && Distinct(r)
      && x !in Elements(l) && x !in Elements(r)
      && Elements(l) !! Elements(r)
  }

  lemma {:induction false} ElementsAreListed<T>(t: Tree<T>, x: T)
    ensures x in Elements(t) <==> x in Inorder(t)
  {
    if t.Node? {
      ElementsAreListed(t.left, x);
      ElementsAreListed(t.right, x);
    }
  }

  /** The number of items, which the source calls the weight. */
  function Weight<T>(t: Tree<T>): (n: nat)
    ensures n == |Inorder(t)|
  {
    match t
    case Leaf => 0
    case Node(l, _, r) => 1 + Weight(l) + Weight(r)
  }

  function Height<T>(t: Tree<T>): nat {
    match t
    case Leaf => 0
    case Node(l, _, r) =>
      1 + if Height(l) >= Height(r) then Height(l) else Height(r)
  }

  /** How far the left subtree outweighs the right one. */
  function Lean<T>(t: Tree<T>): int
    requires t.Node?
  {
    Weight(t.left) - Weight(t.right)
  }

  /** Every node has subtrees whose weights differ by at most one. */
  predicate Balanced<T>(t: Tree<T>) {
    match t
    case Leaf => true
    case Node(l, _, r) => -1 <= Lean(t) <= 1 && Balanced(l) && Balanced(r)
  }

  // ----- The ends of a tree

  function Greatest<T>(t: Tree<T>): T
    requires t.Node?
  {
    if t.right.Leaf? then t.item else Greatest(t.right)
  }

  function Least<T>(t: Tree<T>): T
    requires t.Node?
  {
    if t.left.Leaf? then t.item else Least(t.left)
  }

  /** The tree without its greatest item, whose left subtree takes its place. */
  function DropGreatest<T>(t: Tree<T>): Tree<T>
    requires t.Node?
  {
    if t.right.Leaf? then t.left else Node(t.left, t.item, DropGreatest(t.right))
  }

  function DropLeast<T>(t: Tree<T>): Tree<T>
    requires t.Node?
  {
    if t.left.Leaf? then t.right else Node(DropLeast(t.left), t.item, t.right)
  }

  lemma {:induction false} DropGreatestInorder<T>(t: Tree<T>)
    requires t.Node?
    ensures Inorder(t) == Inorder(DropGreatest(t)) + [Greatest(t)]
    ensures Elements(t) == Elements(DropGreatest(t)) + {Greatest(t)}
    ensures Distinct(t) ==> Distinct(DropGreatest(t)) && Greatest(t) !in Elements(DropGreatest(t))
  {
    if t.right.Node? {
      DropGreatestInorder(t.right);
    }
  }

  lemma {:induction false} DropLeastInorder<T>(t: Tree<T>)
    requires t.Node?
    ensures Inorder(t) == [Least(t)] + Inorder(DropLeast(t))
    ensures Elements(t) == Elements(DropLeast(t)) + {Least(t)}
    ensures Distinct(t) ==> Distinct(DropLeast(t)) && Least(t) !in Elements(DropLeast(t))
  {
    if t.left.Node? {
      DropLeastInorder(t.left);
    }
  }

  // ----- Rebalancing

  /** One pass of the rebalancing loop on a tree that is too heavy on the left: the greatest
      item of the left subtree becomes the root, and the old root, left child cleared, hangs
      to its right. */
  function ShiftRight<T>(t: Tree<T>): Tree<T>
    requires t.Node? && t.left.Node?
  {
    Node(DropGreatest(t.left), Greatest(t.left), Node(Leaf, t.item, t.right))
  }

  /** The mirror image of ShiftRight. */
  function ShiftLeft<T>(t: Tree<T>): Tree<T>
    requires t.Node? && t.right.Node?
  {
    Node(Node(t.left, t.item, Leaf), Least(t.right), DropLeast(t.right))
  }

  /** A pass keeps the in-order sequence and brings the two weights closer by two. */
  lemma {:induction false} ShiftRightKeeps<T>(t: Tree<T>)
    requires t.Node? && t.left.Node?
    ensures Inorder(ShiftRight(t)) == Inorder(t)
    ensures Elements(ShiftRight(t)) == Elements(t)
    ensures Distinct(t) ==> Distinct(ShiftRight(t))
    ensures Lean(ShiftRight(t)) == Lean(t) - 2
  {
    DropGreatestInorder(t.left);
    var r := Node(Leaf, t.item, t.right);
    assert Inorder(r) == [t.item] + Inorder(t.right);
    assert Elements(r) == Elements(r.left) + {t.item} + Elements(t.right);
  }

  lemma {:induction false} ShiftLeftKeeps<T>(t: Tree<T>)
    requires t.Node? && t.right.Node?
    ensures Inorder(ShiftLeft(t)) == Inorder(t)
    ensures Elements(ShiftLeft(t)) == Elements(t)
    ensures Distinct(t) ==> Distinct(ShiftLeft(t))
    ensures Lean(ShiftLeft(t)) == Lean(t) + 2
  {
    DropLeastInorder(t.right);
    var l := Node(t.left, t.item, Leaf);
    assert Inorder(l) == Inorder(t.left) + [t.item];
    assert Elements(l) == Elements(t.left) + {t.item} + Elements(l.right);
  }

  /** The rebalancing loop at one node: shift until the two weights differ by at most one. */
  function Settle<T>(t: Tree<T>): (s: Tree<T>)
    requires t.Node?
    ensures s.Node? && -1 <= Lean(s) <= 1
    ensures Inorder(s) == Inorder(t) && Elements(s) == Elements(t)
    ensures Distinct(t) ==> Distinct(s)
    decreases if Lean(t) >= 0 then Lean(t) else -Lean(t)
  {
    if Lean(t) > 1 then
      ShiftRightKeeps(t);
      Settle(ShiftRight(t))
    else if Lean(t) < -1 then
      ShiftLeftKeeps(t);
      Settle(ShiftLeft(t))
    else t
  }

  /** Rebalancing a whole tree: settle the root, then rebalance both subtrees.
      The contract is the theorem: the walk order is kept, and every node ends balanced. */
  function Rebalance<T>(t: Tree<T>): (b: Tree<T>)
    ensures Inorder(b) == Inorder(t)
    ensures Elements(b) == Elements(t)
    ensures Distinct(t) ==> Distinct(b)
    ensures Balanced(b)
    decreases Weight(t)
  {
    if t.Leaf? then Leaf
    else
      var s := Settle(t);
      assert Weight(s) == Weight(t);
      Node(Rebalance(s.left), s.item, Rebalance(s.right))
  }

  /** A balanced tree needs no work: rebalancing returns it unchanged. */
  lemma {:induction false} RebalanceIsIdempotent<T>(t: Tree<T>)
    ensures Balanced(t) <==> Rebalance(t) == t
  {
    if t.Node? && Balanced(t) {
      assert Settle(t) == t;
      RebalanceIsIdempotent(t.left);
      RebalanceIsIdempotent(t.right);
    }
  }

  // ----- Height

  lemma {:induction false} Pow2Monotone(m: nat, n: nat)
    requires m <= n
    ensures Pow2(m) <= Pow2(n)
    decreases n
  {
    if m < n {
      Pow2Monotone(m, n - 1);
    }
  }

  /** n items fill less than a complete tree of their height ... */
  lemma {:induction false} WeightBelowPow2<T>(t: Tree<T>)
    ensures Weight(t) < Pow2(Height(t))
  {
    match t
    case Leaf =>
    case Node(l, _, r) =>
      WeightBelowPow2(l);
      WeightBelowPow2(r);
      Pow2Monotone(Height(l), Height(t) - 1);
      Pow2Monotone(Height(r), Height(t) - 1);
  }

  /** ... and a balanced tree is no higher than it must be. */
  lemma {:induction false} BalancedHeight<T>(t: Tree<T>)
    requires Balanced(t) && t.Node?
    ensures Pow2(Height(t) - 1) <= Weight(t) < Pow2(Height(t))
  {
    WeightBelowPow2(t);
    if t.left.Node? { BalancedHeight(t.left); }
    if t.right.Node? { BalancedHeight(t.right); }
  }

  // ----- Searching

  /** What a comparison function says along the walk: once the sought key is below an item
      it is below all later ones, and once above an item it was above all earlier ones. */
  ghost predicate Monotone<T>(probe: T -> int, s: seq<T>) {
    forall i, j :: 0 <= i < j < |s| ==>
      (probe(s[i]) < 0 ==> probe(s[j]) < 0) && (probe(s[j]) > 0 ==> probe(s[i]) > 0)
  }

  lemma MonotoneSplit<T>(probe: T -> int, l: seq<T>, x: T, r: seq<T>)
    requires Monotone(probe, l + [x] + r)
    ensures Monotone(probe, l) && Monotone(probe, r)
    ensures probe(x) <= 0 ==> forall y <- r :: probe(y) <= 0
    ensures probe(x) < 0 ==> forall y <- r :: probe(y) < 0
    ensures probe(x) >= 0 ==> forall y <- l :: probe(y) >= 0
    ensures probe(x) > 0 ==> forall y <- l :: probe(y) > 0
  {
    var s := l + [x] + r;
    assert s[|l|] == x;
    assert forall i :: 0 <= i < |l| ==> s[i] == l[i];
    assert forall i :: 0 <= i < |r| ==> s[|l| + 1 + i] == r[i];
    forall i, j | 0 <= i < j < |r|
      ensures (probe(r[i]) < 0 ==> probe(r[j]) < 0) && (probe(r[j]) > 0 ==> probe(r[i]) > 0)
    {
      assert s[|l| + 1 + i] == r[i] && s[|l| + 1 + j] == r[j];
    }
  }

  /** The descent of BalancedBTreeFind. */
  function Search<T>(t: Tree<T>, probe: T -> int): Option<T> {
    match t
    case Leaf => None
    case Node(l, x, r) =>
      if probe(x) == 0 then Some(x)
      else if probe(x) < 0 then Search(l, probe)
      else Search(r, probe)
  }

  /** The number of comparisons the descent makes. */
  function Comparisons<T>(t: Tree<T>, probe: T -> int): nat {
    match t
    case Leaf => 0
    case Node(l, x, r) =>
      1 + if probe(x) == 0 then 0
          else if probe(x) < 0 then Comparisons(l, probe)
          else Comparisons(r, probe)
  }

  /** Search is sound and complete: it comes back empty-handed only when no item matches. */
  lemma {:induction false} SearchFinds<T>(t: Tree<T>, probe: T -> int)
    requires Monotone(probe, Inorder(t))
    ensures Search(t, probe).Some? ==>
              Search(t, probe).value in Inorder(t) && probe(Search(t, probe).value) == 0
    ensures Search(t, probe).None? <==> forall x <- Inorder(t) :: probe(x) != 0
  {
    match t
    case Leaf =>
    case Node(l, x, r) =>
      MonotoneSplit(probe, Inorder(l), x, Inorder(r));
      SearchFinds(l, probe);
      SearchFinds(r, probe);
      assert forall y :: y in Inorder(t) <==> y in Inorder(l) || y == x || y in Inorder(r);
  }

  lemma {:induction false} ComparisonsWithinHeight<T>(t: Tree<T>, probe: T -> int)
    ensures Comparisons(t, probe) <= Height(t)
  {
    match t
    case Leaf =>
    case Node(l, x, r) =>
      ComparisonsWithinHeight(l, probe);
      ComparisonsWithinHeight(r, probe);
  }

  /** A balanced tree of n items answers in at most floor(log2 n) + 1 comparisons:
      any power of two above n bounds them by its exponent. */
  lemma SearchIsLogarithmic<T>(t: Tree<T>, probe: T -> int, k: nat)
    requires Balanced(t) && Weight(t) < Pow2(k)
    ensures Comparisons(t, probe) <= k
  {
    ComparisonsWithinHeight(t, probe);
    if t.Node? && Height(t) > k {
      BalancedHeight(t);
      Pow2Monotone(k, Height(t) - 1);
    }
  }

  // ----- Inserting

  /** Whether BalancedBTreeAdd links the item in: not when the last node it meets on the way
      down compares equal to it. */
  predicate Accepts<T>(t: Tree<T>, probe: T -> int) {
    match t
    case Leaf => true
    case Node(l, x, r) =>
      if probe(x) < 0 then Accepts(l, probe)
      else !(probe(x) == 0 && r.Leaf?) && Accepts(r, probe)
  }

  /** The tree after linking the new item where the descent ends. */
  function Insert<T>(t: Tree<T>, item: T, probe: T -> int): Tree<T> {
    match t
    case Leaf => Node(Leaf, item, Leaf)
    case Node(l, x, r) =>
      if probe(x) < 0 then Node(Insert(l, item, probe), x, r)
      else Node(l, x, Insert(r, item, probe))
  }

  /** How many items precede the place where the descent ends. */
  function InsertIndex<T>(t: Tree<T>, probe: T -> int): nat {
    match t
    case Leaf => 0
    case Node(l, x, r) =>
      if probe(x) < 0 then InsertIndex(l, probe)
      else Weight(l) + 1 + InsertIndex(r, probe)
  }

  /** The descent ends behind everything the new item does not precede, in front of the rest. */
  lemma {:induction false} InsertIndexSplits<T>(t: Tree<T>, probe: T -> int)
    requires Monotone(probe, Inorder(t))
    ensures var k := InsertIndex(t, probe);
            && k <= |Inorder(t)|
            && (forall i :: 0 <= i < k ==> probe(Inorder(t)[i]) >= 0)
            && (forall i :: k <= i < |Inorder(t)| ==> probe(Inorder(t)[i]) < 0)
  {
    match t
    case Leaf =>
    case Node(l, x, r) =>
      MonotoneSplit(probe, Inorder(l), x, Inorder(r));
      InsertIndexSplits(l, probe);
      InsertIndexSplits(r, probe);
  }

  /** Inserting disturbs nothing else. */
  lemma {:induction false} InsertInorder<T>(t: Tree<T>, item: T, probe: T -> int)
    ensures var k := InsertIndex(t, probe);
            && k <= |Inorder(t)|
            && Inorder(Insert(t, item, probe)) == Inorder(t)[..k] + [item] + Inorder(t)[k..]
  {
    match t
    case Leaf =>
    case Node(l, x, r) =>
      var k := InsertIndex(t, probe);
      if probe(x) < 0 {
        InsertInorder(l, item, probe);
        PutInFront(Inorder(l), [x], Inorder(r), k, item);
      } else {
        InsertInorder(r, item, probe);
        PutBehind(Inorder(l) + [x], Inorder(r), InsertIndex(r, probe), item);
      }
  }

  lemma PutInFront<T>(l: seq<T>, x: seq<T>, r: seq<T>, k: nat, item: T)
    requires k <= |l|
    ensures (l[..k] + [item] + l[k..]) + x + r == (l + x + r)[..k] + [item] + (l + x + r)[k..]
  {
    assert (l + x + r)[..k] == l[..k];
    assert (l + x + r)[k..] == l[k..] + x + r;
  }

  lemma PutBehind<T>(l: seq<T>, r: seq<T>, k: nat, item: T)
    requires k <= |r|
    ensures l + (r[..k] + [item] + r[k..]) == (l + r)[..|l| + k] + [item] + (l + r)[|l| + k..]
  {
    assert (l + r)[..|l| + k] == l + r[..k];
    assert (l + r)[|l| + k..] == r[k..];
  }

  /** A key that compares equal to nothing is always accepted. */
  lemma {:induction false} FreshIsAccepted<T>(t: Tree<T>, probe: T -> int)
    requires forall x <- Inorder(t) :: probe(x) != 0
    ensures Accepts(t, probe)
  {
    match t
    case Leaf =>
    case Node(l, x, r) =>
      assert forall y <- Inorder(l) :: y in Inorder(t);
      assert forall y <- Inorder(r) :: y in Inorder(t);
      assert x in Inorder(t);
      FreshIsAccepted(l, probe);
      FreshIsAccepted(r, probe);
  }

  /** Some item that compares equal has nothing to its right below it. */
  predicate EqualWithoutRight<T>(t: Tree<T>, probe: T -> int) {
    match t
    case Leaf => false
    case Node(l, x, r) => (probe(x) == 0 && r.Leaf?) || EqualWithoutRight(l, probe) || EqualWithoutRight(r, probe)
  }

  lemma {:induction false} NoneEqual<T>(t: Tree<T>, probe: T -> int)
    requires forall x <- Inorder(t) :: probe(x) != 0
    ensures !EqualWithoutRight(t, probe)
  {
    match t
    case Leaf =>
    case Node(l, x, r) =>
      assert forall y <- Inorder(l) :: y in Inorder(t);
      assert forall y <- Inorder(r) :: y in Inorder(t);
      assert x in Inorder(t);
      NoneEqual(l, probe);
      NoneEqual(r, probe);
  }

  /** No two items of the list compare equal. */
  ghost predicate OneEqual<T>(probe: T -> int, s: seq<T>) {
    forall i, j :: 0 <= i < j < |s| ==> probe(s[i]) != 0 || probe(s[j]) != 0
  }

  lemma OneEqualParts<T>(probe: T -> int, l: seq<T>, x: T, r: seq<T>)
    requires OneEqual(probe, l + [x] + r)
    ensures OneEqual(probe, l) && OneEqual(probe, r)
    ensures probe(x) == 0 ==> (forall y <- l :: probe(y) != 0) && forall y <- r :: probe(y) != 0
  {
    var s := l + [x] + r;
    assert forall i :: 0 <= i < |l| ==> s[i] == l[i];
    assert forall i :: 0 <= i < |r| ==> s[|l| + 1 + i] == r[i];
    assert s[|l|] == x;
  }

  /** A key equal to the key of one item is refused just when that item has no right subtree. */
  lemma {:induction false} AcceptsExactly<T>(t: Tree<T>, probe: T -> int)
    requires Monotone(probe, Inorder(t)) && OneEqual(probe, Inorder(t))
    ensures Accepts(t, probe) <==> !EqualWithoutRight(t, probe)
  {
    match t
    case Leaf =>
    case Node(l, x, r) =>
      MonotoneSplit(probe, Inorder(l), x, Inorder(r));
      OneEqualParts(probe, Inorder(l), x, Inorder(r));
      if probe(x) < 0 {
        NoneEqual(r, probe);
        AcceptsExactly(l, probe);
      } else {
        NoneEqual(l, probe);
        AcceptsExactly(r, probe);
      }
  }

  /** An equal key that is linked in. */
  lemma DuplicateIsAccepted()
    ensures var t, probe := Node(Leaf, 5, Node(Leaf, 7, Leaf)), (x: int) => 5 - x;
      Accepts(t, probe) && Inorder(Insert(t, 5, probe)) == [5, 5, 7]
  {
    var r, probe := Node(Leaf, 7, Leaf), (x: int) => 5 - x;
    assert Insert(r, 5, probe) == Node(Node(Leaf, 5, Leaf), 7, Leaf);
    assert Inorder(Node(Leaf, 5, Leaf)) == [5];
    assert Inorder(Node(Node(Leaf, 5, Leaf), 7, Leaf)) == [5, 7];
  }

  lemma {:induction false} InsertElements<T>(t: Tree<T>, item: T, probe: T -> int)
    requires Distinct(t) && item !in Elements(t)
    ensures Elements(Insert(t, item, probe)) == Elements(t) + {item}
    ensures Distinct(Insert(t, item, probe))
  {
    match t
    case Leaf =>
    case Node(l, x, r) =>
      if probe(x) < 0 {
        InsertElements(l, item, probe);
      } else {
        InsertElements(r, item, probe);
      }
  }

  // ----- Removing

  /** What takes the place of a removed node: the greatest item of a heavier left subtree,
      else the least item of the right subtree, else nothing. */
  function Merge<T>(l: Tree<T>, r: Tree<T>): Tree<T> {
    if Weight(l) > Weight(r) then Node(DropGreatest(l), Greatest(l), r)
    else if r.Node? then Node(l, Least(r), DropLeast(r))
    else Leaf
  }

  lemma {:induction false} MergeInorder<T>(l: Tree<T>, r: Tree<T>)
    ensures Inorder(Merge(l, r)) == Inorder(l) + Inorder(r)
  {
    if Weight(l) > Weight(r) {
      DropGreatestInorder(l);
    } else if r.Node? {
      DropLeastInorder(r);
      Regrouped(Inorder(l), [Least(r)], Inorder(DropLeast(r)));
    } else {
      assert Weight(l) == 0 && l.Leaf?;
    }
  }

  lemma Regrouped<T>(a: seq<T>, b: seq<T>, c: seq<T>)
    ensures a + (b + c) == a + b + c
  {
  }

  lemma {:induction false} MergeElements<T>(l: Tree<T>, r: Tree<T>)
    ensures Elements(Merge(l, r)) == Elements(l) + Elements(r)
    ensures Distinct(l) && Distinct(r) && Elements(l) !! Elements(r) ==> Distinct(Merge(l, r))
  {
    if Weight(l) > Weight(r) {
      DropGreatestInorder(l);
    } else if r.Node? {
      DropLeastInorder(r);
    } else {
      assert Weight(l) == 0 && l.Leaf?;
    }
  }

  /** The tree after an item is removed, wherever it sits. */
  ghost function Removed<T>(t: Tree<T>, x: T): Tree<T> {
    match t
    case Leaf => Leaf
    case Node(l, y, r) =>
      if x == y then Merge(l, r)
      else if x in Elements(l) then Node(Removed(l, x), y, r)
      else Node(l, y, Removed(r, x))
  }

  lemma {:induction false} RemoveElements<T>(t: Tree<T>, x: T)
    requires Distinct(t) && x in Elements(t)
    ensures Elements(Removed(t, x)) == Elements(t) - {x}
    ensures Distinct(Removed(t, x))
  {
    if x == t.item {
      MergeElements(t.left, t.right);
    } else if x in Elements(t.left) {
      RemoveElements(t.left, x);
    } else {
      RemoveElements(t.right, x);
    }
  }

  /** A sequence without its k-th element. */
  function Cut<T>(s: seq<T>, k: nat): seq<T>
    requires k < |s|
  {
    s[..k] + s[k + 1..]
  }

  lemma CutFront<T>(a: seq<T>, b: seq<T>, k: nat)
    requires k < |a|
    ensures Cut(a + b, k) == Cut(a, k) + b && (a + b)[k] == a[k]
  {
  }

  lemma CutBack<T>(a: seq<T>, b: seq<T>, k: nat)
    requires k < |b|
    ensures Cut(a + b, |a| + k) == a + Cut(b, k) && (a + b)[|a| + k] == b[k]
  {
  }

  lemma CutMiddle<T>(a: seq<T>, x: T, b: seq<T>)
    ensures Cut(a + [x] + b, |a|) == a + b && (a + [x] + b)[|a|] == x
  {
  }

  /** Removing takes one item out of the walk and keeps the order of the others. */
  lemma {:induction false} RemoveInorder<T>(t: Tree<T>, x: T) returns (k: nat)
    requires Distinct(t) && x in Elements(t)
    ensures k < |Inorder(t)| && Inorder(t)[k] == x
    ensures Inorder(Removed(t, x)) == Cut(Inorder(t), k)
  {
    var l, y, r := Inorder(t.left), t.item, Inorder(t.right);
    if x == y {
      MergeInorder(t.left, t.right);
      CutMiddle(l, y, r);
      k := |l|;
    } else if x in Elements(t.left) {
      k := RemoveInorder(t.left, x);
      CutFront(l, [y] + r, k);
      Regrouped(l, [y], r);
      Regrouped(Cut(l, k), [y], r);
    } else {
      k := RemoveInorder(t.right, x);
      CutBack(l + [y], r, k);
      k := |l + [y]| + k;
    }
  }

  // ----- Positions: a tree with a hole, seen from the hole

  /** The way from a hole up to the root.  Above(up, x, side) is a step to the node x, whose
      other subtree is side: InLeft when the hole is x's left child, InRight when its right. */
  datatype Path<T> = Top | InLeft(up: Path<T>, item: T, side: Tree<T>) | InRight(up: Path<T>, item: T, side: Tree<T>)

  function Plug<T>(p: Path<T>, t: Tree<T>): Tree<T> {
    match p
    case Top => t
    case InLeft(up, x, r) => Plug(up, Node(t, x, r))
    case InRight(up, x, l) => Plug(up, Node(l, x, t))
  }

  /** The items in front of the hole, and behind it. */
  function Before<T>(p: Path<T>): seq<T> {
    match p
    case Top => []
    case InLeft(up, _, _) => Before(up)
    case InRight(up, x, l) => Before(up) + Inorder(l) + [x]
  }

  function After<T>(p: Path<T>): seq<T> {
    match p
    case Top => []
    case InLeft(up, x, r) => [x] + Inorder(r) + After(up)
    case InRight(up, _, _) => After(up)
  }

  ghost function PathElements<T>(p: Path<T>): set<T> {
    match p
    case Top => {}
    case InLeft(up, x, side) => PathElements(up) + {x} + Elements(side)
    case InRight(up, x, side) => PathElements(up) + {x} + Elements(side)
  }

  ghost predicate DistinctPath<T>(p: Path<T>) {
    match p
    case Top => true
    case InLeft(up, x, side) =>
      && DistinctPath(up) && Distinct(side) && x !in PathElements(up) && x !in Elements(side)
      && PathElements(up) !! Elements(side)
    case InRight(up, x, side) =>
      && DistinctPath(up) && Distinct(side) && x !in PathElements(up) && x !in Elements(side)
      && PathElements(up) !! Elements(side)
  }

  /** A plugged tree is its path and its subtree, with nothing shared and nothing lost. */
  lemma {:induction false} PlugInorder<T>(p: Path<T>, t: Tree<T>)
    ensures Inorder(Plug(p, t)) == Before(p) + Inorder(t) + After(p)
  {
    match p
    case Top =>
    case InLeft(up, x, r) =>
      PlugInorder(up, Node(t, x, r));
      AllRegrouped(Before(up), Inorder(t), [x], Inorder(r), After(up));
    case InRight(up, x, l) =>
      PlugInorder(up, Node(l, x, t));
      AllRegrouped(Before(up), Inorder(l), [x], Inorder(t), After(up));
  }

  lemma AllRegrouped<T>(a: seq<T>, b: seq<T>, c: seq<T>, d: seq<T>, e: seq<T>)
    ensures a + (b + c + d) + e == a + b + (c + d + e) == (a + b + c) + d + e
  {
  }

  lemma {:induction false} PlugElements<T>(p: Path<T>, t: Tree<T>)
    ensures Elements(Plug(p, t)) == PathElements(p) + Elements(t)
    ensures Distinct(Plug(p, t)) <==> DistinctPath(p) && Distinct(t) && PathElements(p) !! Elements(t)
  {
    match p
    case Top =>
    case InLeft(up, x, r) =>
      PlugElements(up, Node(t, x, r));
    case InRight(up, x, l) =>
      PlugElements(up, Node(l, x, t));
  }

  /** Every item has a place. */
  lemma {:induction false} PlaceOf<T>(p: Path<T>, t: Tree<T>, x: T) returns (q: Path<T>, s: Tree<T>)
    requires x in Elements(t)
    ensures Plug(q, s) == Plug(p, t) && s.Node? && s.item == x
    decreases t
  {
    if x == t.item {
      q, s := p, t;
    } else if x in Elements(t.left) {
      q, s := PlaceOf(InLeft(p, t.item, t.right), t.left, x);
    } else {
      q, s := PlaceOf(InRight(p, t.item, t.left), t.right, x);
    }
  }

  lemma {:induction false} RemoveAtPlace<T>(p: Path<T>, t: Tree<T>, x: T)
    requires Distinct(Plug(p, t)) && x in Elements(t)
    ensures Removed(Plug(p, t), x) == Plug(p, Removed(t, x))
  {
    PlugElements(p, t);
    match p
    case Top =>
    case InLeft(up, y, r) =>
      RemoveAtPlace(up, Node(t, y, r), x);
    case InRight(up, y, l) =>
      RemoveAtPlace(up, Node(l, y, t), x);
  }

  lemma TakeOneMore<T>(s: seq<T>, k: nat)
    requires k < |s|
    ensures s[..k] + [s[k]] == s[..k + 1]
  {
  }

  /** The neighbourhood of a place, by position in the walk. */
  lemma {:induction false} Neighbours<T>(p: Path<T>, t: Tree<T>)
    requires t.Node?
    ensures var s, k := Inorder(Plug(p, t)), |Before(p)| + |Inorder(t.left)|;
            && k + |Inorder(t.right)| < |s| && s[k] == t.item
            && (t.right.Node? ==> s[k + 1] == Least(t.right)
                                  && s[k + 1 + |Inorder(t.right.left)|] == t.right.item)
            && (p.Top? ==> |s| == k + 1 + |Inorder(t.right)|)
            && (p.InLeft? ==> k + 1 + |Inorder(t.right)| < |s| && s[k + 1 + |Inorder(t.right)|] == p.item)
            && (p.InRight? ==> |Before(p)| > 0 && s[|Before(p)| - 1] == p.item)
  {
    PlugInorder(p, t);
    if t.right.Node? {
      DropLeastInorder(t.right);
    }
  }

  lemma {:induction false} PlaceOfIndex<T>(p: Path<T>, t: Tree<T>, k: nat) returns (q: Path<T>, s: Tree<T>)
    requires k < |Inorder(t)|
    ensures Plug(q, s) == Plug(p, t) && s.Node?
    ensures |Before(q)| + |Inorder(s.left)| == |Before(p)| + k && s.item == Inorder(t)[k]
    decreases t
  {
    var l := |Inorder(t.left)|;
    if k == l {
      q, s := p, t;
    } else if k < l {
      q, s := PlaceOfIndex(InLeft(p, t.item, t.right), t.left, k);
    } else {
      q, s := PlaceOfIndex(InRight(p, t.item, t.left), t.right, k - l - 1);
    }
  }

  /** The items of a tree without repetitions are listed without repetitions. */
  lemma {:induction false} ListedOnce<T>(t: Tree<T>, i: nat, j: nat)
    requires Distinct(t) && i < j < |Inorder(t)|
    ensures Inorder(t)[i] != Inorder(t)[j]
  {
    var l, r, n := Inorder(t.left), Inorder(t.right), |Inorder(t.left)|;
    if j < n {
      ListedOnce(t.left, i, j);
    } else if i > n {
      ListedOnce(t.right, i - n - 1, j - n - 1);
    } else {
      if i < n { ElementsAreListed(t.left, l[i]); }
      if j > n { ElementsAreListed(t.right, r[j - n - 1]); }
    }
  }
}
