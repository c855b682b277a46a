/** Trees keyed by name, as corefunc/json_attribs.c keeps them: a finite map from names up to
    letter case. The tree operations are the ones BalancedBTree proves its methods against. */
module NameTrees {
  import opened Basics
  import opened Shapes
  import opened KeyOrder

  datatype Entry<V> = Entry(key: string, item: V)

  function Probe<V>(n: string): Entry<V> -> int {
    (x: Entry<V>) => CompareText(n, x.key)
  }

  /** The keys ascend, so no two are equal up to letter case. */
  ghost predicate Sorted<V>(s: seq<Entry<V>>) {
    forall i, j :: 0 <= i < j < |s| ==> CompareText(s[i].key, s[j].key) < 0
  }

  /** The map a list of entries stands for. */
  function Pairs<V>(s: seq<Entry<V>>): map<string, V> {
    if s == [] then map[] else Pairs(s[..|s| - 1])[Folded(s[|s| - 1].key) := s[|s| - 1].item]
  }

  function View<V>(t: Tree<Entry<V>>): map<string, V> {
    Pairs(Inorder(t))
  }

  lemma {:induction false} PairsAppend<V>(a: seq<Entry<V>>, b: seq<Entry<V>>)
    ensures Pairs(a + b) == Pairs(a) + Pairs(b)
  {
    if b == [] {
      assert a + b == a;
    } else {
      assert (a + b)[..|a + b| - 1] == a + b[..|b| - 1];
      PairsAppend(a, b[..|b| - 1]);
    }
  }

  lemma PairsAround<V>(a: seq<Entry<V>>, x: Entry<V>, b: seq<Entry<V>>)
    ensures Pairs(a + [x] + b) == Pairs(a)[Folded(x.key) := x.item] + Pairs(b)
  {
    PairsAppend(a + [x], b);
    assert (a + [x])[..|a|] == a;
  }

  /** A name is in the map just when some key is equal to it up to letter case. */
  lemma {:induction false} PairsHolds<V>(s: seq<Entry<V>>, n: string)
    ensures n in Pairs(s) <==> exists i :: 0 <= i < |s| && Folded(s[i].key) == n
  {
    if s != [] {
      var front := s[..|s| - 1];
      PairsHolds(front, n);
      if Folded(s[|s| - 1].key) != n && n in Pairs(s) {
        var i :| 0 <= i < |front| && Folded(front[i].key) == n;
        assert s[i] == front[i];
      }
      if i :| 0 <= i < |s| && Folded(s[i].key) == n {
        assert i < |front| ==> front[i] == s[i];
      }
    }
  }

  lemma SortedParts<V>(a: seq<Entry<V>>, x: Entry<V>, b: seq<Entry<V>>)
    requires Sorted(a + [x] + b)
    ensures Sorted(a) && Sorted(b)
    ensures Folded(x.key) !in Pairs(a) && Folded(x.key) !in Pairs(b)
  {
    var s := a + [x] + b;
    assert forall i :: 0 <= i < |a| ==> s[i] == a[i];
    assert forall i :: 0 <= i < |b| ==> s[|a| + 1 + i] == b[i];
    PairsHolds(a, Folded(x.key));
    PairsHolds(b, Folded(x.key));
    forall i | 0 <= i < |a|
      ensures Folded(a[i].key) != Folded(x.key)
    {
      assert CompareText(s[i].key, s[|a|].key) < 0;
      TextEqualUpToCase(a[i].key, x.key);
    }
    forall i | 0 <= i < |b|
      ensures Folded(b[i].key) != Folded(x.key)
    {
      assert CompareText(s[|a|].key, s[|a| + 1 + i].key) < 0;
      TextEqualUpToCase(b[i].key, x.key);
      TextAntisymmetric(b[i].key, x.key);
    }
  }

  lemma StrictlyBefore(n: string, a: string, b: string)
    requires CompareText(a, b) < 0
    ensures CompareText(n, a) < 0 ==> CompareText(n, b) < 0
    ensures CompareText(n, b) > 0 ==> CompareText(n, a) > 0
    ensures CompareText(n, a) == 0 ==> CompareText(n, b) < 0
  {
    TextAntisymmetric(a, b);
    TextAntisymmetric(n, a);
    TextAntisymmetric(n, b);
    if CompareText(n, a) <= 0 && CompareText(n, b) >= 0 {
      TextTransitive(b, n, a);
    }
  }

  lemma SortedIsMonotone<V>(s: seq<Entry<V>>, n: string)
    requires Sorted(s)
    ensures Monotone(Probe(n), s)
  {
    var probe := Probe(n);
    forall i, j | 0 <= i < j < |s|
      ensures (probe(s[i]) < 0 ==> probe(s[j]) < 0) && (probe(s[j]) > 0 ==> probe(s[i]) > 0)
    {
      StrictlyBefore(n, s[i].key, s[j].key);
    }
  }

  function Found<V>(t: Tree<Entry<V>>, n: string): Option<V> {
    match Search(t, Probe(n))
    case Some(x) => Some(x.item)
    case None => None
  }

  /** BalancedBTreeFind on a tree of names is a look into the map. */
  lemma {:induction false} FoundInView<V>(t: Tree<Entry<V>>, n: string)
    requires Sorted(Inorder(t))
    ensures Found(t, n) == if Folded(n) in View(t) then Some(View(t)[Folded(n)]) else None
  {
    match t
    case Leaf =>
    case Node(l, x, r) =>
      SortedParts(Inorder(l), x, Inorder(r));
      PairsAround(Inorder(l), x, Inorder(r));
      TextEqualUpToCase(n, x.key);
      FoundInView(l, n);
      FoundInView(r, n);
      SidesApart(Inorder(l), x, Inorder(r), n);
  }

  /** On the sides that the search does not descend the name is not to be found. */
  lemma LeftApart<V>(a: seq<Entry<V>>, x: Entry<V>, b: seq<Entry<V>>, n: string)
    requires Sorted(a + [x] + b) && CompareText(n, x.key) > 0
    ensures Folded(n) !in Pairs(a)
  {
    var s := a + [x] + b;
    PairsHolds(a, Folded(n));
    forall i | 0 <= i < |a|
      ensures Folded(a[i].key) != Folded(n)
    {
      assert s[i] == a[i] && s[|a|] == x;
      StrictlyBefore(n, a[i].key, x.key);
      TextEqualUpToCase(n, a[i].key);
    }
  }

  lemma RightApart<V>(a: seq<Entry<V>>, x: Entry<V>, b: seq<Entry<V>>, n: string)
    requires Sorted(a + [x] + b) && CompareText(n, x.key) < 0
    ensures Folded(n) !in Pairs(b)
  {
    var s := a + [x] + b;
    PairsHolds(b, Folded(n));
    forall i | 0 <= i < |b|
      ensures Folded(b[i].key) != Folded(n)
    {
      assert s[|a| + 1 + i] == b[i] && s[|a|] == x;
      StrictlyBefore(n, x.key, b[i].key);
      TextEqualUpToCase(n, b[i].key);
    }
  }

  lemma SidesApart<V>(a: seq<Entry<V>>, x: Entry<V>, b: seq<Entry<V>>, n: string)
    requires Sorted(a + [x] + b)
    ensures CompareText(n, x.key) < 0 ==> Folded(n) !in Pairs(b)
    ensures CompareText(n, x.key) > 0 ==> Folded(n) !in Pairs(a)
  {
    if CompareText(n, x.key) < 0 {
      RightApart(a, x, b, n);
    } else if CompareText(n, x.key) > 0 {
      LeftApart(a, x, b, n);
    }
  }

  /** The tree with the value of an entry replaced; its key keeps its spelling. */
  function Reassigned<V>(t: Tree<Entry<V>>, n: string, v: V): Tree<Entry<V>> {
    match t
    case Leaf => Leaf
    case Node(l, x, r) =>
      if CompareText(n, x.key) == 0 then Node(l, Entry(x.key, v), r)
      else if CompareText(n, x.key) < 0 then Node(Reassigned(l, n, v), x, r)
      else Node(l, x, Reassigned(r, n, v))
  }

  function Keys<V>(s: seq<Entry<V>>): seq<string> {
    seq(|s|, i requires 0 <= i < |s| => s[i].key)
  }

  lemma KeysAround<V>(a: seq<Entry<V>>, x: Entry<V>, b: seq<Entry<V>>)
    ensures Keys(a + [x] + b) == Keys(a) + [x.key] + Keys(b)
  {
  }

  lemma {:induction false} ReassignedKeys<V>(t: Tree<Entry<V>>, n: string, v: V)
    ensures Keys(Inorder(Reassigned(t, n, v))) == Keys(Inorder(t))
  {
    match t
    case Leaf =>
    case Node(l, x, r) =>
      ReassignedKeys(l, n, v);
      ReassignedKeys(r, n, v);
      var u := Reassigned(t, n, v);
      KeysAround(Inorder(l), x, Inorder(r));
      KeysAround(Inorder(u.left), u.item, Inorder(u.right));
  }

  lemma {:induction false} ReassignedShape<V>(t: Tree<Entry<V>>, n: string, v: V)
    ensures Weight(Reassigned(t, n, v)) == Weight(t)
    ensures Balanced(t) ==> Balanced(Reassigned(t, n, v))
  {
    match t
    case Leaf =>
    case Node(l, x, r) =>
      ReassignedShape(l, n, v);
      ReassignedShape(r, n, v);
  }

  lemma {:induction false} ReassignedSorted<V>(t: Tree<Entry<V>>, n: string, v: V)
    requires Sorted(Inorder(t))
    ensures Sorted(Inorder(Reassigned(t, n, v)))
  {
    ReassignedKeys(t, n, v);
    var s, u := Inorder(t), Inorder(Reassigned(t, n, v));
    assert |Keys(s)| == |s| && |Keys(u)| == |u|;
    forall i, j | 0 <= i < j < |u|
      ensures CompareText(u[i].key, u[j].key) < 0
    {
      assert u[i].key == Keys(u)[i] == Keys(s)[i] == s[i].key;
      assert u[j].key == Keys(u)[j] == Keys(s)[j] == s[j].key;
    }
  }

  lemma UpdateLeft<V>(l: map<string, V>, k: string, x: V, r: map<string, V>, n: string, v: V)
    requires n != k && n !in r
    ensures l[n := v][k := x] + r == (l[k := x] + r)[n := v]
  {
  }

  lemma UpdateRight<V>(l: map<string, V>, r: map<string, V>, n: string, v: V)
    ensures l + r[n := v] == (l + r)[n := v]
  {
  }

  lemma UpdateBelow<V>(l: map<string, V>, r: map<string, V>, n: string, v: V, x: V)
    requires n !in r
    ensures l[n := v] + r == (l[n := x] + r)[n := v] == (l + r)[n := v]
  {
  }

  lemma {:induction false} ReassignedView<V>(t: Tree<Entry<V>>, n: string, v: V)
    requires Sorted(Inorder(t)) && Folded(n) in View(t)
    ensures View(Reassigned(t, n, v)) == View(t)[Folded(n) := v]
  {
    match t
    case Leaf =>
    case Node(l, x, r) =>
      SortedParts(Inorder(l), x, Inorder(r));
      PairsAround(Inorder(l), x, Inorder(r));
      SidesApart(Inorder(l), x, Inorder(r), n);
      TextEqualUpToCase(n, x.key);
      if CompareText(n, x.key) == 0 {
        PairsAround(Inorder(l), Entry(x.key, v), Inorder(r));
        UpdateBelow(View(l), View(r), Folded(n), v, x.item);
      } else if CompareText(n, x.key) < 0 {
        ReassignedView(l, n, v);
        PairsAround(Inorder(Reassigned(l, n, v)), x, Inorder(r));
        UpdateLeft(View(l), Folded(x.key), x.item, View(r), Folded(n), v);
      } else {
        ReassignedView(r, n, v);
        PairsAround(Inorder(l), x, Inorder(Reassigned(r, n, v)));
        UpdateRight(View(l)[Folded(x.key) := x.item], View(r), Folded(n), v);
      }
  }

  lemma NotAmong<V>(s: seq<Entry<V>>, n: string)
    requires Folded(n) !in Pairs(s)
    ensures forall x <- s :: Probe(n)(x) != 0
  {
    forall x | x in s
      ensures Probe(n)(x) != 0
    {
      TextEqualUpToCase(n, x.key);
      PairsHolds(s, Folded(n));
    }
  }

  /** A name that is not there is linked in by BalancedBTreeAdd. */
  lemma {:induction false} InsertedSorted<V>(t: Tree<Entry<V>>, n: string, v: V)
    requires Sorted(Inorder(t)) && Folded(n) !in View(t)
    ensures Accepts(t, Probe(n))
    ensures Sorted(Inorder(Insert(t, Entry(n, v), Probe(n))))
  {
    var s, k, e := Inorder(t), InsertIndex(t, Probe(n)), Entry(n, v);
    NotAmong(s, n);
    FreshIsAccepted(t, Probe(n));
    SortedIsMonotone(s, n);
    InsertInorder(t, e, Probe(n));
    InsertIndexSplits(t, Probe(n));
    assert s == s[..k] + s[k..];
    SortedAround(s[..k], e, s[k..], s);
  }

  lemma {:induction false} InsertedView<V>(t: Tree<Entry<V>>, n: string, v: V)
    requires Folded(n) !in View(t)
    ensures View(Insert(t, Entry(n, v), Probe(n))) == View(t)[Folded(n) := v]
  {
    var s, k := Inorder(t), InsertIndex(t, Probe(n));
    InsertInorder(t, Entry(n, v), Probe(n));
    PairsAround(s[..k], Entry(n, v), s[k..]);
    PairsAppend(s[..k], s[k..]);
    assert s == s[..k] + s[k..];
    UpdateBelow(Pairs(s[..k]), Pairs(s[k..]), Folded(n), v, v);
  }

  lemma SortedAround<V>(a: seq<Entry<V>>, e: Entry<V>, b: seq<Entry<V>>, s: seq<Entry<V>>)
    requires s == a + b && Sorted(s)
    requires forall i :: 0 <= i < |a| ==> Probe(e.key)(s[i]) > 0
    requires forall i :: |a| <= i < |s| ==> Probe(e.key)(s[i]) < 0
    ensures Sorted(a + [e] + b)
  {
    var u := a + [e] + b;
    forall i, j | 0 <= i < j < |u|
      ensures CompareText(u[i].key, u[j].key) < 0
    {
      if j == |a| {
        assert u[i] == s[i] && Probe(e.key)(s[i]) > 0;
        TextAntisymmetric(e.key, s[i].key);
      } else if i == |a| {
        assert u[j] == s[j - 1] && Probe(e.key)(s[j - 1]) < 0;
      } else {
        assert u[i] == s[if i < |a| then i else i - 1] && u[j] == s[if j < |a| then j else j - 1];
      }
    }
  }
}
