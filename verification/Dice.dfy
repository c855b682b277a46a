/** corefunc/dice.c: roll a number of dice and keep the best of them. */
module Dice {

  function Total(s: seq<int>): int {
    if s == [] then 0 else s[0] + Total(s[1..])
  }

  predicate Descending(s: seq<int>) {
    s == [] || ((forall x :: x in s[1..] ==> x <= s[0]) && Descending(s[1..]))
  }

  /** What qsort does with dieSortDesc: a descending rearrangement. */
  function SortedDown(s: seq<int>): (r: seq<int>)
    ensures Descending(r) && multiset(r) == multiset(s) && |r| == |s|
  {
    if s == [] then [] else
      assert s == [s[0]] + s[1..];
      PlacedMeans(s[0], SortedDown(s[1..]));
      Placed(s[0], SortedDown(s[1..]))
  }

  function Placed(x: int, s: seq<int>): seq<int> {
    if s == [] || s[0] <= x then [x] + s else [s[0]] + Placed(x, s[1..])
  }

  lemma {:induction false} PlacedMeans(x: int, s: seq<int>)
    requires Descending(s)
    ensures multiset(Placed(x, s)) == multiset{x} + multiset(s) && |Placed(x, s)| == |s| + 1
    ensures Descending(Placed(x, s))
  {
    var r := Placed(x, s);
    if s == [] || s[0] <= x {
      assert r[1..] == s;
      assert forall y :: y in s ==> y == s[0] || y in s[1..];
    } else {
      PlacedMeans(x, s[1..]);
      var rest := Placed(x, s[1..]);
      assert s == [s[0]] + s[1..] && r[1..] == rest;
      forall y | y in rest
        ensures y <= s[0]
      {
        assert y in multiset(rest);
        assert y == x || y in s[1..];
      }
    }
  }

  lemma {:induction false} TotalAppend(s: seq<int>, t: seq<int>)
    ensures Total(s + t) == Total(s) + Total(t)
  {
    if s == [] {
      assert s + t == t;
    } else {
      assert (s + t)[1..] == s[1..] + t;
      TotalAppend(s[1..], t);
    }
  }

  lemma {:induction false} TotalMiddle(a: seq<int>, x: int, b: seq<int>)
    ensures Total(a + [x] + b) == x + Total(a + b)
  {
    if a == [] {
      assert (a + [x] + b)[1..] == b && a + b == b;
    } else {
      assert (a + [x] + b)[1..] == a[1..] + [x] + b && (a + b)[1..] == a[1..] + b;
      TotalMiddle(a[1..], x, b);
    }
  }

  lemma PartsOf(t: seq<int>, a: seq<int>, x: int, b: seq<int>)
    requires t == a + [x] + b
    ensures Total(t) == x + Total(a + b) && multiset(t) == multiset{x} + multiset(a + b)
  {
    TotalMiddle(a, x, b);
  }

  lemma Apart(t: seq<int>, i: nat) returns (a: seq<int>, b: seq<int>)
    requires i < |t|
    ensures t == a + [t[i]] + b
  {
    a, b := t[..i], t[i + 1..];
  }

  lemma PickAt(t: seq<int>, i: nat) returns (rest: seq<int>)
    requires i < |t|
    ensures |rest| == |t| - 1 && Total(t) == t[i] + Total(rest) && multiset(t) == multiset{t[i]} + multiset(rest)
  {
    var a, b := Apart(t, i);
    PartsOf(t, a, t[i], b);
    rest := a + b;
  }

  lemma FirstIsMost(s: seq<int>, x: int)
    requires Descending(s) && x in multiset(s)
    ensures s != [] && x <= s[0] && multiset(s) == multiset{s[0]} + multiset(s[1..])
  {
    assert s == [s[0]] + s[1..];
    assert x == s[0] || x in s[1..];
  }

  /** Of dice chosen from a sorted list, one is no better than the first die of the list, and the
      others are to be found behind it. */
  lemma Pick(s: seq<int>, t: seq<int>) returns (x: int, rest: seq<int>)
    requires Descending(s) && t != [] && multiset(t) <= multiset(s)
    ensures s != [] && x <= s[0] && |rest| == |t| - 1
    ensures Total(t) == x + Total(rest) && multiset(rest) <= multiset(s[1..])
  {
    FirstIsMost(s, t[0]);
    var i: nat := if s[0] in t then Index(t, s[0]) else 0;
    x := t[i];
    rest := PickAt(t, i);
    FirstIsMost(s, x);
    assert x != s[0] ==> s[0] !in multiset(t);
    RestIsThere(s[0], multiset(s[1..]), x, multiset(rest));
  }

  lemma TotalFront(s: seq<int>, n: nat)
    requires 0 < n <= |s|
    ensures Total(s[..n]) == s[0] + Total(s[1..][..n - 1])
  {
    var front := s[..n];
    assert front[0] == s[0] && front[1..] == s[1..][..n - 1];
  }

  lemma RestIsThere(first: int, others: multiset<int>, x: int, rest: multiset<int>)
    requires multiset{x} + rest <= multiset{first} + others
    requires x != first ==> first !in rest
    ensures rest <= others
  {
    forall y
      ensures rest[y] <= others[y]
    {
      assert (multiset{x} + rest)[y] <= (multiset{first} + others)[y];
    }
  }

  /** No choice among the dice adds up to more than as many from the front of the sorted list. */
  lemma {:induction false} FrontIsMost(s: seq<int>, t: seq<int>)
    requires Descending(s) && multiset(t) <= multiset(s)
    ensures |t| <= |s| && Total(t) <= Total(s[..|t|])
    decreases |s|
  {
    if t != [] {
      var x, rest := Pick(s, t);
      FrontIsMost(s[1..], rest);
      TotalFront(s, |t|);
    }
  }

  lemma SortedFrontIsBest(faces: seq<int>, n: nat, t: seq<int>)
    requires n <= |faces|
    ensures multiset(SortedDown(faces)[..n]) <= multiset(faces)
    ensures |t| == n && multiset(t) <= multiset(faces) ==> Total(t) <= Total(SortedDown(faces)[..n])
  {
    var sorted := SortedDown(faces);
    assert sorted == sorted[..n] + sorted[n..];
    if |t| == n && multiset(t) <= multiset(sorted) {
      FrontIsMost(sorted, t);
    }
  }

  function Index(t: seq<int>, x: int): (i: nat)
    requires x in t
    ensures i < |t| && t[i] == x
  {
    if t[0] == x then 0 else 1 + Index(t[1..], x)
  }

  lemma {:induction false} TotalBetween(s: seq<int>, low: int, high: int)
    requires forall i :: 0 <= i < |s| ==> low <= s[i] <= high
    ensures |s| * low <= Total(s) <= |s| * high
  {
    if s != [] {
      TotalBetween(s[1..], low, high);
      assert |s| * low == low + (|s| - 1) * low && |s| * high == high + (|s| - 1) * high;
    }
  }

  function Faces(random: seq<nat>, size: int): (rolls: seq<int>)
    requires size > 1
    ensures |rolls| == |random| && forall i :: 0 <= i < |rolls| ==> rolls[i] == random[i] % size + 1
  {
    if random == [] then [] else [random[0] % size + 1] + Faces(random[1..], size)
  }

  predicate Rolls(number: int, size: int, top: int) {
    number > 0 && size > 1 && top > 0
  }

  /** The sum of the best of the dice. */
  function Kept(random: seq<nat>, size: int, top: int): int
    requires Rolls(|random|, size, top)
  {
    Total(SortedDown(Faces(random, size))[..if top > |random| then |random| else top])
  }

  /** Some n of the dice add up to total. */
  ghost predicate AddsUp(faces: seq<int>, n: nat, total: int) {
    exists best {:trigger Total(best)} :: |best| == n && multiset(best) <= multiset(faces) && Total(best) == total
  }

  lemma Attained(faces: seq<int>, best: seq<int>)
    requires multiset(best) <= multiset(faces)
    ensures AddsUp(faces, |best|, Total(best))
  {
  }

  /** Some top of the dice add up to Kept, and no top of them to more. */
  lemma KeptIsBest(random: seq<nat>, size: int, top: int, t: seq<int>)
    requires Rolls(|random|, size, top)
    ensures var faces := Faces(random, size);
            var n := if top > |random| then |random| else top;
      && AddsUp(faces, n, Kept(random, size, top))
      && (|t| == n && multiset(t) <= multiset(faces) ==> Total(t) <= Kept(random, size, top))
  {
    var n := if top > |random| then |random| else top;
    SortedFrontIsBest(Faces(random, size), n, t);
    Attained(Faces(random, size), SortedDown(Faces(random, size))[..n]);
  }

  /** Each die shows 1 to size, so keeping top of them gives top to top times size. */
  lemma KeptBetween(random: seq<nat>, size: int, top: int)
    requires Rolls(|random|, size, top)
    ensures var n := if top > |random| then |random| else top;
      n <= Kept(random, size, top) <= n * size
  {
    var faces := Faces(random, size);
    var sorted := SortedDown(faces);
    forall i | 0 <= i < |sorted|
      ensures 1 <= sorted[i] <= size
    {
      assert sorted[i] in multiset(sorted);
      assert sorted[i] in faces;
    }
    TotalBetween(sorted[..if top > |random| then |random| else top], 1, size);
  }

  method Throw(number: int, size: int, random: seq<nat>) returns (rolls: seq<int>)
    requires size > 1 && |random| == number
    ensures rolls == Faces(random, size)
  {
    rolls := [];
    var i := 0;
    while i < number
      invariant 0 <= i <= number == |random| && rolls == Faces(random, size)[..i]
    {
      rolls := rolls + [random[i] % size + 1];
      i := i + 1;
    }
  }

  /** dice. The numbers random() returns are a parameter. */
  method Roll(number: int, size: int, keep: int, random: seq<nat>) returns (sum: int)
    requires |random| == if number > 0 then number else 0
    ensures sum == if Rolls(number, size, keep) then Kept(random, size, keep) else 0
    ensures sum == 0 <==> number <= 0 || size <= 1 || keep <= 0
  {
    if number <= 0 || size <= 1 || keep <= 0 {
      return 0;
    }
    var top := keep;
    if top > number {
      top := number;
    }
    var rolls := Throw(number, size, random);
    rolls := SortedDown(rolls);
    sum := AddUp(rolls, top);
    KeptBetween(random, size, keep);
  }

  method AddUp(rolls: seq<int>, top: nat) returns (sum: int)
    requires top <= |rolls|
    ensures sum == Total(rolls[..top])
  {
    var i := 0;
    sum := 0;
    while i < top
      invariant 0 <= i <= top && sum == Total(rolls[..i])
    {
      TotalAppend(rolls[..i], [rolls[i]]);
      assert rolls[..i + 1] == rolls[..i] + [rolls[i]];
      sum := sum + rolls[i];
      i := i + 1;
    }
  }
}
