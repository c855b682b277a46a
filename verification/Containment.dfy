/** corefunc/object_data.c: objects inside objects, objects carried by characters, and weights.
    Objects and characters are numbered, and each link field of the source is a table here; a
    link that is not in its table is NULL. */
module Containment {

  newtype Obj = int
  newtype Char = int
  datatype Link<T> = Null | To(target: T)

  const NOWHERE: int := -1

  lemma ClearedAlready<T>(links: map<Obj, T>, o: Obj)
    requires o !in links
    ensures links - {o} == links
  {
  }

  predicate NoRepeats(s: seq<Obj>) {
    s == [] || (s[0] !in s[1..] && NoRepeats(s[1..]))
  }

  lemma {:induction false} NoRepeatsAppend(s: seq<Obj>, x: Obj)
    requires NoRepeats(s) && x !in s
    ensures NoRepeats(s + [x])
  {
    if s != [] {
      NoRepeatsAppend(s[1..], x);
      assert (s + [x])[1..] == s[1..] + [x];
    }
  }

  /** The sum of the known weights over a list. */
  ghost function Sum(w: map<Obj, int>, s: seq<Obj>): int {
    if s == [] then 0 else (if s[0] in w then w[s[0]] else 0) + Sum(w, s[1..])
  }

  /** Changing one weight changes the sums over just the lists that object is on. */
  lemma {:induction false} SumAfterChange(w: map<Obj, int>, s: seq<Obj>, x: Obj, v: int)
    requires x in w && NoRepeats(s)
    ensures Sum(w[x := v], s) == Sum(w, s) + if x in s then v - w[x] else 0
  {
    if s != [] {
      SumAfterChange(w, s[1..], x, v);
      assert x in s <==> x == s[0] || x in s[1..];
      assert x == s[0] ==> x !in s[1..];
    }
  }

  lemma {:induction false} SumAppend(w: map<Obj, int>, s: seq<Obj>, t: seq<Obj>)
    ensures Sum(w, s + t) == Sum(w, s) + Sum(w, t)
  {
    if s == [] {
      assert s + t == t;
    } else {
      assert (s + t)[1..] == s[1..] + t;
      SumAppend(w, s[1..], t);
    }
  }

  /** A list after one object has been unlinked. */
  function Without(s: seq<Obj>, x: Obj): seq<Obj> {
    if s == [] then [] else if s[0] == x then s[1..] else [s[0]] + Without(s[1..], x)
  }

  /** The same list but for x, which stood in it. */
  ghost predicate LeftOut(s: seq<Obj>, x: Obj, t: seq<Obj>) {
    exists a, b :: s == a + [x] + b && t == a + b
  }

  lemma {:induction false} WithoutSplits(s: seq<Obj>, x: Obj) returns (a: seq<Obj>, b: seq<Obj>)
    requires x in s
    ensures s == a + [x] + b && Without(s, x) == a + b
  {
    if s[0] == x {
      a, b := [], s[1..];
    } else {
      a, b := WithoutSplits(s[1..], x);
      FrontPut(s[0], a, [x] + b);
      FrontPut(s[0], a, b);
      assert a + [x] + b == a + ([x] + b);
      a := [s[0]] + a;
      assert a + [x] + b == a + ([x] + b);
    }
  }

  lemma FrontPut(y: Obj, a: seq<Obj>, b: seq<Obj>)
    ensures [y] + (a + b) == [y] + a + b
  {
  }

  lemma WithoutLeavesOut(s: seq<Obj>, x: Obj)
    requires x in s
    ensures LeftOut(s, x, Without(s, x))
  {
    var a, b := WithoutSplits(s, x);
  }

  lemma {:induction false} WithoutIsShorter(w: map<Obj, int>, s: seq<Obj>, x: Obj)
    requires x in s && NoRepeats(s)
    ensures NoRepeats(Without(s, x))
    ensures forall y :: y in Without(s, x) <==> y in s && y != x
    ensures Sum(w, Without(s, x)) == Sum(w, s) - if x in w then w[x] else 0
    ensures |Without(s, x)| == |s| - 1
  {
    assert forall y :: y in s <==> y == s[0] || y in s[1..];
    if s[0] != x {
      WithoutIsShorter(w, s[1..], x);
      var rest := Without(s[1..], x);
      assert Without(s, x)[1..] == rest;
      assert forall y :: y in Without(s, x) <==> y == s[0] || y in rest;
    }
  }

  /** Every container lies less deep than what is in it: there is no way round in circles. */
  predicate Grounded(inside: map<Obj, Obj>, depth: map<Obj, nat>) {
    forall o {:trigger inside[o]} :: o in inside ==> o in depth && inside[o] in depth && depth[inside[o]] < depth[o]
  }

  ghost predicate HasNoCircle(inside: map<Obj, Obj>, objs: set<Obj>) {
    exists depth: map<Obj, nat> :: depth.Keys == objs && Grounded(inside, depth)
  }

  /** The outermost container. */
  function Outermost(inside: map<Obj, Obj>, depth: map<Obj, nat>, o: Obj): (r: Obj)
    requires Grounded(inside, depth) && o in depth
    ensures r in depth && r !in inside
    decreases depth[o]
  {
    if o in inside then Outermost(inside, depth, inside[o]) else o
  }

  /** Depths for the forest in which obj has been put into objTo. */
  function Lowered(inside: map<Obj, Obj>, depth: map<Obj, nat>, obj: Obj, objTo: Obj): map<Obj, nat>
    requires Grounded(inside, depth) && objTo in depth
  {
    map o | o in depth :: if Outermost(inside, depth, o) == obj then depth[o] + depth[objTo] + 1 else depth[o]
  }

  /** Putting an outermost object into another tree leaves no circle. */
  lemma PutStaysGrounded(inside: map<Obj, Obj>, depth: map<Obj, nat>, obj: Obj, objTo: Obj)
    requires Grounded(inside, depth) && obj in depth && objTo in depth
    requires obj !in inside && Outermost(inside, depth, objTo) != obj
    ensures Grounded(inside[obj := objTo], Lowered(inside, depth, obj, objTo))
  {
    var d := Lowered(inside, depth, obj, objTo);
    var p := inside[obj := objTo];
    forall o | o in p
      ensures o in d && p[o] in d && d[p[o]] < d[o]
    {
      if o != obj {
        assert p[o] == inside[o];
        assert Outermost(inside, depth, o) == Outermost(inside, depth, inside[o]);
      }
    }
  }

  /** What is outermost once obj has been put into objTo. */
  lemma {:induction false} PutMovesATree(inside: map<Obj, Obj>, depth: map<Obj, nat>, depthAfter: map<Obj, nat>,
                                         obj: Obj, objTo: Obj, o: Obj)
    requires Grounded(inside, depth) && obj !in inside && {obj, objTo, o} <= depth.Keys == depthAfter.Keys
    requires Grounded(inside[obj := objTo], depthAfter)
    ensures Outermost(inside[obj := objTo], depthAfter, o)
         == Outermost(inside, depth, if Outermost(inside, depth, o) == obj then objTo else o)
    decreases depthAfter[o]
  {
    var after := inside[obj := objTo];
    assert o in after ==> after[o] == if o == obj then objTo else inside[o];
    if o == obj {
      PutMovesATree(inside, depth, depthAfter, obj, objTo, objTo);
    } else if o in inside {
      PutMovesATree(inside, depth, depthAfter, obj, objTo, inside[o]);
    }
  }

  /** The outermost container does not depend on the depths, and lies no deeper in any of them. */
  lemma {:induction false} OutermostAnyDepth(inside: map<Obj, Obj>, depth: map<Obj, nat>, other: map<Obj, nat>, o: Obj)
    requires Grounded(inside, depth) && Grounded(inside, other) && o in depth && o in other
    ensures Outermost(inside, depth, o) == Outermost(inside, other, o)
    ensures other[Outermost(inside, depth, o)] <= other[o]
    decreases depth[o]
  {
    if o in inside {
      OutermostAnyDepth(inside, depth, other, inside[o]);
    }
  }

  /** A put closes no circle exactly when its target is not inside what is put. */
  lemma PutIsGroundedOnlyOutside(inside: map<Obj, Obj>, depth: map<Obj, nat>, obj: Obj, objTo: Obj)
    requires Grounded(inside, depth) && obj in depth && objTo in depth && obj !in inside
    ensures Outermost(inside, depth, objTo) != obj <==> HasNoCircle(inside[obj := objTo], depth.Keys)
  {
    if Outermost(inside, depth, objTo) != obj {
      PutStaysGrounded(inside, depth, obj, objTo);
      assert Lowered(inside, depth, obj, objTo).Keys == depth.Keys;
    }
    var after := inside[obj := objTo];
    if HasNoCircle(after, depth.Keys) {
      var d: map<Obj, nat> :| d.Keys == depth.Keys && Grounded(after, d);
      assert forall x :: x in inside ==> after[x] == inside[x];
      OutermostAnyDepth(inside, depth, d, objTo);
      assert after[obj] == objTo;
    }
  }

  /** Content lists and container links say the same; what is just being moved may be unlisted. */
  predicate Listed(inside: map<Obj, Obj>, contents: map<Obj, seq<Obj>>, moving: set<Obj>) {
    && (forall o {:trigger contents[o]} :: o in contents ==> NoRepeats(contents[o]))
    && (forall o, x {:trigger x in contents[o]} :: o in contents && x in contents[o] ==> x in inside && inside[x] == o)
    && (forall x {:trigger inside[x]} :: x in inside ==>
          inside[x] in contents && (x !in moving ==> x in contents[inside[x]]))
  }

  lemma HookListed(inside: map<Obj, Obj>, contents: map<Obj, seq<Obj>>, obj: Obj, objTo: Obj)
    requires Listed(inside, contents, {}) && obj !in inside && objTo in contents
    ensures Listed(inside[obj := objTo], contents[objTo := contents[objTo] + [obj]], {})
  {
    var list := contents[objTo] + [obj];
    assert obj !in contents[objTo];
    assert forall x :: x in list <==> x in contents[objTo] || x == obj;
    NoRepeatsAppend(contents[objTo], obj);
  }

  lemma UnhookListed(inside: map<Obj, Obj>, contents: map<Obj, seq<Obj>>, obj: Obj, objFrom: Obj)
    requires Listed(inside, contents, {}) && obj in inside && objFrom == inside[obj]
    ensures obj in contents[objFrom] && NoRepeats(contents[objFrom])
    ensures Listed(inside, contents[objFrom := Without(contents[objFrom], obj)], {obj})
    ensures Listed(inside - {obj}, contents[objFrom := Without(contents[objFrom], obj)], {})
  {
    WithoutIsShorter(map[], contents[objFrom], obj);
  }

  /** A list linked by nextContent from its head. */
  predicate Strung(head: Link<Obj>, next: map<Obj, Obj>, s: seq<Obj>)
    decreases |s|
  {
    if s == [] then head.Null? else head == To(s[0]) && Strung(LinkAt(next, s[0]), next, s[1..])
  }

  function LinkAt<T>(links: map<T, Obj>, x: T): Link<Obj> {
    if x in links then To(links[x]) else Null
  }

  /** Links of objects that are not on the list do not matter to it. */
  lemma {:induction false} StrungElsewhere(head: Link<Obj>, next: map<Obj, Obj>, other: map<Obj, Obj>, s: seq<Obj>)
    requires Strung(head, next, s) && forall x :: x in s ==> LinkAt(next, x) == LinkAt(other, x)
    ensures Strung(head, other, s)
    decreases |s|
  {
    if s != [] {
      StrungElsewhere(LinkAt(next, s[0]), next, other, s[1..]);
    }
  }

  /** A list whose link at i leads past its neighbour runs without that neighbour. */
  lemma {:induction false} StrungPast(head: Link<Obj>, next: map<Obj, Obj>, other: map<Obj, Obj>, s: seq<Obj>, i: nat)
    requires Strung(head, next, s) && i + 1 < |s| && NoRepeats(s)
    requires LinkAt(other, s[i]) == LinkAt(next, s[i + 1])
    requires forall x :: x in s && x != s[i] && x != s[i + 1] ==> LinkAt(next, x) == LinkAt(other, x)
    ensures Strung(head, other, Without(s, s[i + 1]))
    decreases |s|
  {
    assert s[i + 1] in s[1..];
    if i == 0 {
      assert Without(s, s[1]) == [s[0]] + s[2..];
      assert s[1..][1..] == s[2..];
      StrungElsewhere(LinkAt(next, s[1]), next, other, s[2..]);
    } else {
      assert s[i] in s[1..];
      StrungPast(LinkAt(next, s[0]), next, other, s[1..], i - 1);
    }
  }

  /** The state of all objects and characters. A chain lists what a character carries, first
      link first; a depth is greater the deeper an object lies. */
  datatype Tables = Tables(
    weight: map<Obj, int>, inObj: map<Obj, Obj>, contents: map<Obj, seq<Obj>>, depth: map<Obj, nat>,
    carriedBy: map<Obj, Char>, equippedBy: map<Obj, Char>, inRoom: map<Obj, int>,
    chain: map<Char, seq<Obj>>, carryingW: map<Char, int>, carryingN: map<Char, int>)

  predicate Complete(t: Tables) {
    && t.weight.Keys == t.contents.Keys == t.depth.Keys == t.inRoom.Keys
    && t.carryingW.Keys == t.carryingN.Keys == t.chain.Keys
    && Grounded(t.inObj, t.depth)
  }

  /** A chain holds just the objects that say they are carried by that character, each once. */
  predicate Carried(carriedBy: map<Obj, Char>, chain: map<Char, seq<Obj>>) {
    && (forall c {:trigger chain[c]} :: c in chain ==> NoRepeats(chain[c]))
    && (forall c, x {:trigger x in chain[c]} :: c in chain && x in chain[c] ==> x in carriedBy && carriedBy[x] == c)
    && (forall x {:trigger carriedBy[x]} :: x in carriedBy ==> carriedBy[x] in chain && x in chain[carriedBy[x]])
  }

  predicate Sane(t: Tables) {
    && Complete(t) && Listed(t.inObj, t.contents, {}) && Carried(t.carriedBy, t.chain)
    && t.carriedBy.Keys !! t.inObj.Keys && t.carriedBy.Keys <= t.weight.Keys
    && forall c :: c in t.chain ==> t.carryingN[c] == |t.chain[c]|
  }

  /** What an object weighs without its contents. */
  ghost function Own(weight: map<Obj, int>, contents: map<Obj, seq<Obj>>, o: Obj): int
    requires o in weight && o in contents
  {
    weight[o] - Sum(weight, contents[o])
  }

  /** How far a character's carried weight is above what its chain weighs. */
  ghost function Slack(t: Tables, c: Char): int
    requires Complete(t) && c in t.chain
  {
    t.carryingW[c] - Sum(t.weight, t.chain[c])
  }

  /** The walk up the containers, changing each weight by delta. */
  function AddAbove(weight: map<Obj, int>, inside: map<Obj, Obj>, depth: map<Obj, nat>,
                    tmp: Obj, delta: int): map<Obj, int>
    requires Grounded(inside, depth) && tmp in depth && depth.Keys == weight.Keys
    ensures AddAbove(weight, inside, depth, tmp, delta).Keys == weight.Keys
    decreases depth[tmp]
  {
    var w := weight[tmp := weight[tmp] + delta];
    if tmp in inside then AddAbove(w, inside, depth, inside[tmp], delta) else w
  }

  predicate Nowhere(t: Tables, o: Obj)
    requires o in t.inRoom
  {
    o !in t.inObj && o !in t.carriedBy && o !in t.equippedBy && t.inRoom[o] == NOWHERE
  }

  /** The object lies in no container, and the target not in the object. */
  predicate Fits(t: Tables, obj: Obj, objTo: Obj)
    requires Complete(t)
  {
    obj in t.weight && objTo in t.weight && obj !in t.inObj && Outermost(t.inObj, t.depth, objTo) != obj
  }

  predicate MayPut(t: Tables, obj: Obj, objTo: Obj)
    requires Complete(t)
  {
    Fits(t, obj, objTo) && obj !in t.carriedBy
  }

  function Put(t: Tables, obj: Obj, objTo: Obj): (u: Tables)
    requires Complete(t) && Fits(t, obj, objTo)
    ensures Complete(u)
  {
    PutStaysGrounded(t.inObj, t.depth, obj, objTo);
    Tables(AddAbove(t.weight, t.inObj[obj := objTo], Lowered(t.inObj, t.depth, obj, objTo), objTo, t.weight[obj]),
           t.inObj[obj := objTo], t.contents[objTo := t.contents[objTo] + [obj]],
           Lowered(t.inObj, t.depth, obj, objTo), t.carriedBy - {obj}, t.equippedBy - {obj}, t.inRoom,
           t.chain, t.carryingW, t.carryingN)
  }

  predicate Taken(t: Tables, obj: Obj)
    requires obj in t.inRoom
  {
    obj in t.inObj && obj !in t.carriedBy && obj !in t.equippedBy && t.inRoom[obj] == NOWHERE
  }

  /** Whoever carries something has a total. */
  predicate Borne(carriedBy: map<Obj, Char>, carryingW: map<Char, int>) {
    forall x {:trigger carriedBy[x]} :: x in carriedBy ==> carriedBy[x] in carryingW
  }

  /** The walk up stops at the outermost container, whose carrier carries less from now on. */
  function TakeOut(t: Tables, obj: Obj): Tables
    requires Complete(t) && Borne(t.carriedBy, t.carryingW) && obj in t.inObj
  {
    var objFrom := t.inObj[obj];
    var tmp := Outermost(t.inObj, t.depth, objFrom);
    Tables(AddAbove(t.weight, t.inObj, t.depth, objFrom, -t.weight[obj]),
           t.inObj - {obj}, t.contents[objFrom := Without(t.contents[objFrom], obj)],
           t.depth, t.carriedBy, t.equippedBy, t.inRoom, t.chain,
           if tmp in t.carriedBy
           then t.carryingW[t.carriedBy[tmp] := t.carryingW[t.carriedBy[tmp]] - t.weight[obj]] else t.carryingW,
           t.carryingN)
  }

  function Give(t: Tables, obj: Obj, ch: Char): Tables
    requires obj in t.weight && ch in t.chain && ch in t.carryingW && ch in t.carryingN
  {
    Tables(t.weight, t.inObj - {obj}, t.contents, t.depth,
           t.carriedBy[obj := ch], t.equippedBy - {obj}, t.inRoom[obj := NOWHERE],
           t.chain[ch := [obj] + t.chain[ch]], t.carryingW[ch := t.carryingW[ch] + t.weight[obj]],
           t.carryingN[ch := t.carryingN[ch] + 1])
  }

  function TakeBack(t: Tables, obj: Obj): Tables
    requires Complete(t) && obj in t.weight && obj in t.carriedBy && t.carriedBy[obj] in t.chain
  {
    var ch := t.carriedBy[obj];
    Tables(t.weight, t.inObj - {obj}, t.contents, t.depth,
           t.carriedBy - {obj}, t.equippedBy - {obj}, t.inRoom,
           t.chain[ch := Without(t.chain[ch], obj)], t.carryingW[ch := t.carryingW[ch] - t.weight[obj]],
           t.carryingN[ch := t.carryingN[ch] - 1])
  }

  /** Along the walk one object's own weight changes by delta: the one below it lost as much again. */
  lemma {:induction false} AddAboveOwn(weight: map<Obj, int>, inside: map<Obj, Obj>, contents: map<Obj, seq<Obj>>,
                                       depth: map<Obj, nat>, moving: set<Obj>, tmp: Obj, delta: int, o: Obj)
    requires Grounded(inside, depth) && depth.Keys == weight.Keys == contents.Keys && tmp in weight && o in weight
    requires Listed(inside, contents, moving) && forall m :: m in moving ==> m in depth && depth[tmp] < depth[m]
    ensures Own(AddAbove(weight, inside, depth, tmp, delta), contents, o)
         == Own(weight, contents, o) + if o == tmp then delta else 0
    decreases depth[tmp]
  {
    var w := weight[tmp := weight[tmp] + delta];
    SumAfterChange(weight, contents[o], tmp, weight[tmp] + delta);
    assert tmp !in moving;
    assert tmp in contents[o] <==> tmp in inside && inside[tmp] == o;
    if tmp in inside {
      AddAboveOwn(w, inside, contents, depth, moving, inside[tmp], delta, o);
    }
  }

  /** The walk changes the weight of a chain only at the outermost container. */
  lemma {:induction false} AddAboveChain(weight: map<Obj, int>, inside: map<Obj, Obj>, depth: map<Obj, nat>,
                                         tmp: Obj, delta: int, s: seq<Obj>)
    requires Grounded(inside, depth) && depth.Keys == weight.Keys && tmp in weight && NoRepeats(s)
    requires forall x :: x in s ==> x !in inside
    ensures Sum(AddAbove(weight, inside, depth, tmp, delta), s)
         == Sum(weight, s) + if Outermost(inside, depth, tmp) in s then delta else 0
    decreases depth[tmp]
  {
    SumAfterChange(weight, s, tmp, weight[tmp] + delta);
    if tmp in inside {
      AddAboveChain(weight[tmp := weight[tmp] + delta], inside, depth, inside[tmp], delta, s);
    }
  }

  lemma StillOnTheChain(carriedBy: map<Obj, Char>, chain: map<Char, seq<Obj>>, obj: Obj)
    requires Carried(carriedBy, chain) && obj in carriedBy
    ensures !Carried(carriedBy - {obj}, chain)
  {
    var c, rest := carriedBy[obj], carriedBy - {obj};
    assert c in chain && obj in chain[c] && obj !in rest;
  }

  lemma PutStaysSane(t: Tables, obj: Obj, objTo: Obj)
    requires Sane(t) && MayPut(t, obj, objTo)
    ensures Sane(Put(t, obj, objTo))
  {
    HookListed(t.inObj, t.contents, obj, objTo);
    ClearedAlready(t.carriedBy, obj);
    assert Put(t, obj, objTo).inObj.Keys == t.inObj.Keys + {obj};
  }

  /** Putting an object into another tree leaves no circle and right lists, exactly when no one
      carries the object: whoever does would keep it on the chain. */
  lemma PutKeepsForest(t: Tables, obj: Obj, objTo: Obj)
    requires Sane(t) && Fits(t, obj, objTo)
    ensures Sane(Put(t, obj, objTo)) <==> obj !in t.carriedBy
  {
    if obj in t.carriedBy {
      StillOnTheChain(t.carriedBy, t.chain, obj);
    } else {
      PutStaysSane(t, obj, objTo);
    }
  }

  /** Every object keeps its own weight, and the slack of just the character who carries the
      outermost container drops, by the weight put. */
  lemma PutKeepsOwn(t: Tables, obj: Obj, objTo: Obj, o: Obj)
    requires Sane(t) && Fits(t, obj, objTo) && o in t.weight
    ensures var u := Put(t, obj, objTo); Own(u.weight, u.contents, o) == Own(t.weight, t.contents, o)
  {
    PutStaysGrounded(t.inObj, t.depth, obj, objTo);
    HookListed(t.inObj, t.contents, obj, objTo);
    var contents := t.contents[objTo := t.contents[objTo] + [obj]];
    var depth := Lowered(t.inObj, t.depth, obj, objTo);
    AddAboveOwn(t.weight, t.inObj[obj := objTo], contents, depth, {}, objTo, t.weight[obj], o);
    SumAppend(t.weight, t.contents[objTo], [obj]);
  }

  /** The character carries the outermost container. */
  predicate CarriedIn(t: Tables, objTo: Obj, c: Char)
    requires Complete(t) && objTo in t.weight
  {
    var root := Outermost(t.inObj, t.depth, objTo);
    root in t.carriedBy && t.carriedBy[root] == c
  }

  lemma PutSlack(t: Tables, obj: Obj, objTo: Obj, c: Char)
    requires Sane(t) && MayPut(t, obj, objTo) && c in t.chain
    ensures Slack(Put(t, obj, objTo), c) == Slack(t, c) - if CarriedIn(t, objTo, c) then t.weight[obj] else 0
  {
    PutStaysGrounded(t.inObj, t.depth, obj, objTo);
    var u := Put(t, obj, objTo);
    PutMovesATree(t.inObj, t.depth, u.depth, obj, objTo, objTo);
    assert obj !in t.chain[c];
    AddAboveChain(t.weight, u.inObj, u.depth, objTo, t.weight[obj], t.chain[c]);
    assert u.chain == t.chain;
  }

  lemma TakeOutKeepsForest(t: Tables, obj: Obj)
    requires Sane(t) && obj in t.weight && Taken(t, obj)
    ensures Sane(TakeOut(t, obj))
  {
    UnhookListed(t.inObj, t.contents, obj, t.inObj[obj]);
    var inObj := t.inObj - {obj};
    assert forall x :: x in inObj ==> inObj[x] == t.inObj[x];
  }

  lemma TakeOutKeepsOwn(t: Tables, obj: Obj, o: Obj)
    requires Sane(t) && obj in t.weight && Taken(t, obj) && o in t.weight
    ensures var u := TakeOut(t, obj); Own(u.weight, u.contents, o) == Own(t.weight, t.contents, o)
  {
    var objFrom := t.inObj[obj];
    UnhookListed(t.inObj, t.contents, obj, objFrom);
    WithoutIsShorter(t.weight, t.contents[objFrom], obj);
    var contents := t.contents[objFrom := Without(t.contents[objFrom], obj)];
    AddAboveOwn(t.weight, t.inObj, contents, t.depth, {obj}, objFrom, -t.weight[obj], o);
  }

  lemma TakeOutSlack(t: Tables, obj: Obj, c: Char)
    requires Sane(t) && obj in t.weight && Taken(t, obj) && c in t.chain
    ensures Complete(TakeOut(t, obj)) && Slack(TakeOut(t, obj), c) == Slack(t, c)
  {
    TakeOutKeepsForest(t, obj);
    var objFrom := t.inObj[obj];
    AddAboveChain(t.weight, t.inObj, t.depth, objFrom, -t.weight[obj], t.chain[c]);
  }

  lemma GiveKeeps(t: Tables, obj: Obj, ch: Char)
    requires Sane(t) && obj in t.weight && ch in t.chain && Nowhere(t, obj)
    ensures Sane(Give(t, obj, ch))
    ensures forall c :: c in t.chain ==> Slack(Give(t, obj, ch), c) == Slack(t, c)
  {
    var u := Give(t, obj, ch);
    ClearedAlready(t.inObj, obj);
    assert obj !in t.chain[ch];
    assert u.chain[ch][1..] == t.chain[ch];
  }

  lemma TakeBackKeeps(t: Tables, obj: Obj)
    requires Sane(t) && obj in t.carriedBy
    ensures Sane(TakeBack(t, obj))
    ensures forall c :: c in t.chain ==> Slack(TakeBack(t, obj), c) == Slack(t, c)
  {
    var u := TakeBack(t, obj);
    ClearedAlready(t.inObj, obj);
    WithoutIsShorter(t.weight, t.chain[t.carriedBy[obj]], obj);
  }

  /** One call of one of the four operations. */
  datatype Op =
    | PutOp(obj: Link<Obj>, objTo: Link<Obj>)
    | TakeOutOp(obj: Link<Obj>)
    | GiveOp(obj: Link<Obj>, to: Link<Char>)
    | TakeBackOp(obj: Link<Obj>)

  predicate Puts(op: Op) {
    op.PutOp? && op.obj.To? && op.objTo.To? && op.obj != op.objTo
  }

  /** What a caller owes: objects and characters that exist, and a put that may be made. */
  predicate Proper(t: Tables, op: Op)
    requires Complete(t)
  {
    && (op.obj.To? ==> op.obj.target in t.weight)
    && (Puts(op) ==> MayPut(t, op.obj.target, op.objTo.target))
    && (op.GiveOp? && op.to.To? ==> op.to.target in t.chain)
  }

  function Effect(t: Tables, op: Op): (u: Tables)
    requires Sane(t) && Proper(t, op)
    ensures Sane(u) && u.weight.Keys == t.weight.Keys && u.chain.Keys == t.chain.Keys
  {
    match op
    case PutOp(obj, objTo) =>
      if Puts(op) then PutKeepsForest(t, obj.target, objTo.target); Put(t, obj.target, objTo.target) else t
    case TakeOutOp(obj) =>
      if obj.To? && Taken(t, obj.target) then TakeOutKeepsForest(t, obj.target); TakeOut(t, obj.target) else t
    case GiveOp(obj, to) =>
      if obj.To? && to.To? && Nowhere(t, obj.target)
      then GiveKeeps(t, obj.target, to.target); Give(t, obj.target, to.target)
      else t
    case TakeBackOp(obj) =>
      if obj.To? && obj.target in t.carriedBy && obj.target !in t.equippedBy
      then TakeBackKeeps(t, obj.target); TakeBack(t, obj.target)
      else t
  }

  predicate ProperRun(t: Tables, ops: seq<Op>)
    requires Sane(t)
    decreases |ops|
  {
    ops == [] || (Proper(t, ops[0]) && ProperRun(Effect(t, ops[0]), ops[1..]))
  }

  function After(t: Tables, ops: seq<Op>): Tables
    requires Sane(t) && ProperRun(t, ops)
    decreases |ops|
  {
    if ops == [] then t else After(Effect(t, ops[0]), ops[1..])
  }

  /** The weight that an operation puts into something the character carries. */
  function Unbooked(t: Tables, op: Op, c: Char): int
    requires Sane(t) && Proper(t, op)
  {
    if Puts(op) && CarriedIn(t, op.objTo.target, c) then t.weight[op.obj.target] else 0
  }

  function UnbookedRun(t: Tables, ops: seq<Op>, c: Char): int
    requires Sane(t) && ProperRun(t, ops)
    decreases |ops|
  {
    if ops == [] then 0 else Unbooked(t, ops[0], c) + UnbookedRun(Effect(t, ops[0]), ops[1..], c)
  }

  lemma EffectKeepsOwn(t: Tables, op: Op, o: Obj)
    requires Sane(t) && Proper(t, op) && o in t.weight
    ensures var u := Effect(t, op); Own(u.weight, u.contents, o) == Own(t.weight, t.contents, o)
  {
    if Puts(op) {
      PutKeepsOwn(t, op.obj.target, op.objTo.target, o);
    } else if op.TakeOutOp? && op.obj.To? && Taken(t, op.obj.target) {
      TakeOutKeepsOwn(t, op.obj.target, o);
    }
  }

  lemma EffectSlack(t: Tables, op: Op, c: Char)
    requires Sane(t) && Proper(t, op) && c in t.chain
    ensures Slack(Effect(t, op), c) == Slack(t, c) - Unbooked(t, op, c)
  {
    match op
    case PutOp(obj, objTo) =>
      if Puts(op) {
        PutSlack(t, obj.target, objTo.target, c);
      }
    case TakeOutOp(obj) =>
      if obj.To? && Taken(t, obj.target) {
        TakeOutSlack(t, obj.target, c);
      }
    case GiveOp(obj, to) =>
      if obj.To? && to.To? && Nowhere(t, obj.target) {
        GiveKeeps(t, obj.target, to.target);
      }
    case TakeBackOp(obj) =>
      if obj.To? && obj.target in t.carriedBy && obj.target !in t.equippedBy {
        TakeBackKeeps(t, obj.target);
      }
  }

  /** Over every run the containers stay a forest with right content lists, every object keeps
      its own weight, and a character's carried weight falls behind its chain by just the weight
      put into things it carries. */
  lemma {:induction false} RunKeeps(t: Tables, ops: seq<Op>, o: Obj, c: Char)
    requires Sane(t) && ProperRun(t, ops) && o in t.weight && c in t.chain
    ensures var u := After(t, ops);
      && Sane(u) && o in u.weight && c in u.chain
      && Own(u.weight, u.contents, o) == Own(t.weight, t.contents, o)
      && Slack(u, c) == Slack(t, c) - UnbookedRun(t, ops, c)
    decreases |ops|
  {
    if ops != [] {
      EffectKeepsOwn(t, ops[0], o);
      EffectSlack(t, ops[0], c);
      RunKeeps(Effect(t, ops[0]), ops[1..], o, c);
    }
  }

  /** Without puts a character's weight and count stay exact, whatever is taken out of its things. */
  lemma {:induction false} CarryStaysExact(t: Tables, ops: seq<Op>, c: Char)
    requires Sane(t) && ProperRun(t, ops) && c in t.chain && Slack(t, c) == 0
    requires forall i :: 0 <= i < |ops| ==> !ops[i].PutOp?
    ensures var u := After(t, ops);
      Sane(u) && c in u.chain && u.carryingW[c] == Sum(u.weight, u.chain[c]) && u.carryingN[c] == |u.chain[c]|
    decreases |ops|
  {
    if ops != [] {
      EffectSlack(t, ops[0], c);
      CarryStaysExact(Effect(t, ops[0]), ops[1..], c);
    }
  }

  /** The exact condition on one put: the carrier's weight stays right just when the object
      weighs nothing or its new outermost container is carried by someone else or no one. */
  lemma PutKeepsCarryExactWhen(t: Tables, obj: Obj, objTo: Obj, c: Char)
    requires Sane(t) && MayPut(t, obj, objTo) && c in t.chain && Slack(t, c) == 0
    ensures Slack(Put(t, obj, objTo), c) == 0 <==> t.weight[obj] == 0 || !CarriedIn(t, objTo, c)
  {
    PutSlack(t, obj, objTo, c);
  }

  class World {
    var weight: map<Obj, int>
    var inObj: map<Obj, Obj>
    var contents: map<Obj, seq<Obj>>
    var carriedBy: map<Obj, Char>
    var equippedBy: map<Obj, Char>
    var inRoom: map<Obj, int>
    var nextContent: map<Obj, Obj>
    var carrying: map<Char, Obj>
    var carryingW: map<Char, int>
    var carryingN: map<Char, int>
    ghost var depth: map<Obj, nat>
    ghost var chain: map<Char, seq<Obj>>

    ghost function State(): Tables
      reads `weight, `inObj, `contents, `depth, `carriedBy, `equippedBy, `inRoom, `chain, `carryingW, `carryingN
    {
      Tables(weight, inObj, contents, depth, carriedBy, equippedBy, inRoom, chain, carryingW, carryingN)
    }

    /** The links from carrying on run along the chains. */
    ghost predicate Linked()
      reads `nextContent, `carrying, `chain
    {
      forall c {:trigger chain[c]} :: c in chain ==> Strung(LinkAt(carrying, c), nextContent, chain[c])
    }

    /** contained_weight. */
    method ContainedWeight(container: Link<Obj>) returns (rval: int)
      requires Sane(State()) && (container.To? ==> container.target in weight)
      ensures rval == if container.To? then weight[container.target] - Own(weight, contents, container.target) else 0
    {
      rval := 0;
      if container.Null? {
        return;
      }
      var s := contents[container.target];
      forall x | x in s
        ensures x in weight
      {
        var o := container.target;
        assert o in contents && x in contents[o];
        assert inObj[x] == o;
      }
      var i := 0;
      while i < |s|
        invariant 0 <= i <= |s|
        invariant rval + Sum(weight, s[i..]) == Sum(weight, s)
      {
        var tmp := s[i];
        rval := rval + weight[tmp];
        i := i + 1;
      }
    }

    /** The walk up in objectPutInObjectLocked. */
    method Load(objTo: Obj, obj: Obj)
      requires Grounded(inObj, depth) && weight.Keys == depth.Keys && objTo in depth && obj in depth
      requires depth[objTo] < depth[obj]
      modifies `weight
      ensures weight == AddAbove(old(weight), inObj, depth, objTo, old(weight)[obj])
    {
      ghost var w := weight[obj];
      var tmp := To(objTo);
      while tmp.To?
        invariant weight.Keys == depth.Keys && weight[obj] == w
        invariant tmp.To? ==> tmp.target in depth && depth[tmp.target] < depth[obj]
        invariant (if tmp.To? then AddAbove(weight, inObj, depth, tmp.target, w) else weight)
               == AddAbove(old(weight), inObj, depth, objTo, w)
        decreases if tmp.Null? then 0 else depth[tmp.target] + 1
      {
        weight := weight[tmp.target := weight[tmp.target] + weight[obj]];
        tmp := LinkAt(inObj, tmp.target);
      }
    }

    /** The walk up in objectTakeFromObject, which stops at the outermost container. */
    method Unload(objFrom: Obj, obj: Obj) returns (tmp: Obj)
      requires Grounded(inObj, depth) && weight.Keys == depth.Keys && objFrom in depth && obj in depth
      requires depth[objFrom] < depth[obj]
      modifies `weight
      ensures weight == AddAbove(old(weight), inObj, depth, objFrom, -old(weight)[obj])
      ensures tmp == Outermost(inObj, depth, objFrom) && weight[obj] == old(weight)[obj]
    {
      ghost var w := weight[obj];
      tmp := objFrom;
      while tmp in inObj
        invariant weight.Keys == depth.Keys && weight[obj] == w
        invariant tmp in depth && depth[tmp] < depth[obj]
        invariant AddAbove(weight, inObj, depth, tmp, -w) == AddAbove(old(weight), inObj, depth, objFrom, -w)
        invariant Outermost(inObj, depth, tmp) == Outermost(inObj, depth, objFrom)
        decreases depth[tmp]
      {
        weight := weight[tmp := weight[tmp] - weight[obj]];
        tmp := inObj[tmp];
      }
      weight := weight[tmp := weight[tmp] - weight[obj]];
    }

    method MoveInto(obj: Obj, objTo: Obj)
      requires Grounded(inObj, depth) && weight.Keys == depth.Keys == contents.Keys && obj in weight && objTo in weight
      requires obj !in inObj && Outermost(inObj, depth, objTo) != obj
      modifies `weight, `inObj, `contents, `depth, `carriedBy, `equippedBy
      ensures inObj == old(inObj)[obj := objTo] && depth == Lowered(old(inObj), old(depth), obj, objTo)
      ensures contents == old(contents)[objTo := old(contents)[objTo] + [obj]]
      ensures carriedBy == old(carriedBy) - {obj} && equippedBy == old(equippedBy) - {obj}
      ensures Grounded(inObj, depth) && weight == AddAbove(old(weight), inObj, depth, objTo, old(weight)[obj])
    {
      PutStaysGrounded(inObj, depth, obj, objTo);
      depth := Lowered(inObj, depth, obj, objTo);
      contents := contents[objTo := contents[objTo] + [obj]];
      inObj := inObj[obj := objTo];
      carriedBy := carriedBy - {obj};
      equippedBy := equippedBy - {obj};
      assert inObj[obj] == objTo;
      Load(objTo, obj);
    }

    /** objectPutInObjectLocked. Its callers hand it an object that is on no content list, and not
        one that contains objTo, from where the walk up would not end: the code looks only for
        objTo itself. */
    method PutInObject(obj: Link<Obj>, objTo: Link<Obj>)
      requires Complete(State())
      requires obj.To? && objTo.To? && obj != objTo ==> Fits(State(), obj.target, objTo.target)
      modifies `weight, `inObj, `contents, `depth, `carriedBy, `equippedBy
      ensures State() == if obj.To? && objTo.To? && obj != objTo then Put(old(State()), obj.target, objTo.target)
                         else old(State())
      ensures if obj.Null? || objTo.Null? || obj.target == objTo.target then
                unchanged(`weight, `inObj, `contents, `carriedBy, `equippedBy)
              else
                var o, to := obj.target, objTo.target;
                && inObj == old(inObj)[o := to] && contents == old(contents)[to := old(contents)[to] + [o]]
                && carriedBy == old(carriedBy) - {o} && equippedBy == old(equippedBy) - {o}
    {
      if obj.Null? || objTo.Null? {
        return;
      }
      if obj == objTo {
        return;
      }
      MoveInto(obj.target, objTo.target);
    }

    method MoveOut(o: Obj)
      requires Grounded(inObj, depth) && weight.Keys == depth.Keys == contents.Keys && o in inObj
      requires Borne(carriedBy, carryingW)
      modifies `weight, `inObj, `contents, `carryingW
      ensures weight == AddAbove(old(weight), old(inObj), depth, old(inObj)[o], -old(weight)[o])
      ensures inObj == old(inObj) - {o}
      ensures var objFrom := old(inObj)[o]; contents == old(contents)[objFrom := Without(old(contents)[objFrom], o)]
      ensures var tmp := Outermost(old(inObj), depth, old(inObj)[o]);
        carryingW == if tmp in carriedBy
                     then old(carryingW)[carriedBy[tmp] := old(carryingW)[carriedBy[tmp]] - old(weight)[o]]
                     else old(carryingW)
    {
      var objFrom := inObj[o];
      contents := contents[objFrom := Without(contents[objFrom], o)];
      var tmp := Unload(objFrom, o);
      inObj := inObj - {o};
      if tmp in carriedBy {
        carryingW := carryingW[carriedBy[tmp] := carryingW[carriedBy[tmp]] - weight[o]];
      }
    }

    method Detach(o: Obj)
      requires Complete(State()) && Borne(carriedBy, carryingW) && o in inObj
      modifies `weight, `inObj, `contents, `carryingW
      ensures State() == TakeOut(old(State()), o)
    {
      MoveOut(o);
    }

    /** objectTakeFromObject. */
    method TakeFromObject(obj: Link<Obj>)
      requires Sane(State()) && (obj.To? ==> obj.target in weight)
      modifies `weight, `inObj, `contents, `carryingW
      ensures State() == if obj.To? && Taken(old(State()), obj.target) then TakeOut(old(State()), obj.target)
                         else old(State())
      ensures if obj.Null? || obj.target !in old(inObj) || obj.target in carriedBy || obj.target in equippedBy
                 || inRoom[obj.target] != -1
              then unchanged(`weight, `inObj, `contents, `carryingW)
              else
                var o, from := obj.target, old(inObj)[obj.target];
                && inObj == old(inObj) - {o} && contents == old(contents)[from := contents[from]]
                && LeftOut(old(contents)[from], o, contents[from])
    {
      if obj.Null? {
        return;
      }
      var o := obj.target;
      if o in carriedBy || o in equippedBy || inRoom[o] != NOWHERE || o !in inObj {
        return;
      }
      UnhookListed(inObj, contents, o, inObj[o]);
      WithoutLeavesOut(contents[inObj[o]], o);
      Detach(o);
    }

    /** The object's links: it becomes the head of the character's chain. */
    method Prepend(o: Obj, ch: Char)
      requires Linked() && ch in chain && forall c {:trigger chain[c]} :: c in chain ==> o !in chain[c]
      modifies `chain, `nextContent, `carrying
      ensures Linked() && chain == old(chain)[ch := [o] + old(chain)[ch]]
    {
      if ch in carrying {
        nextContent := nextContent[o := carrying[ch]];
      } else {
        nextContent := nextContent - {o};
      }
      carrying := carrying[ch := o];
      forall c | c in chain
        ensures Strung(old(LinkAt(carrying, c)), nextContent, chain[c])
      {
        StrungElsewhere(old(LinkAt(carrying, c)), old(nextContent), nextContent, chain[c]);
      }
      assert ([o] + chain[ch])[1..] == chain[ch];
      chain := chain[ch := [o] + chain[ch]];
    }

    method Hand(o: Obj, ch: Char)
      requires o in weight && ch in carryingW && ch in carryingN
      modifies `inObj, `carriedBy, `equippedBy, `inRoom, `carryingW, `carryingN
      ensures inObj == old(inObj) - {o} && carriedBy == old(carriedBy)[o := ch]
      ensures equippedBy == old(equippedBy) - {o} && inRoom == old(inRoom)[o := NOWHERE]
      ensures carryingW == old(carryingW)[ch := old(carryingW)[ch] + weight[o]]
      ensures carryingN == old(carryingN)[ch := old(carryingN)[ch] + 1]
    {
      carriedBy := carriedBy[o := ch];
      inRoom := inRoom[o := NOWHERE];
      equippedBy := equippedBy - {o};
      inObj := inObj - {o};
      carryingW := carryingW[ch := carryingW[ch] + weight[o]];
      carryingN := carryingN[ch := carryingN[ch] + 1];
    }

    method Bestow(o: Obj, ch: Char)
      requires o in weight && ch in chain && ch in carryingW && ch in carryingN
      requires Linked() && forall c {:trigger chain[c]} :: c in chain ==> o !in chain[c]
      modifies `inObj, `carriedBy, `equippedBy, `inRoom, `chain, `carryingW, `carryingN, `nextContent, `carrying
      ensures Linked() && State() == Give(old(State()), o, ch)
    {
      Prepend(o, ch);
      Hand(o, ch);
    }

    /** objectGiveToChar. */
    method GiveToChar(obj: Link<Obj>, to: Link<Char>)
      requires Sane(State()) && Linked() && (obj.To? ==> obj.target in weight) && (to.To? ==> to.target in chain)
      modifies `inObj, `carriedBy, `equippedBy, `inRoom, `chain, `carryingW, `carryingN, `nextContent, `carrying
      ensures Linked()
      ensures State() == if obj.To? && to.To? && Nowhere(old(State()), obj.target)
                         then Give(old(State()), obj.target, to.target) else old(State())
      ensures if obj.Null? || to.Null? || obj.target in old(inObj) || obj.target in old(carriedBy)
                 || obj.target in old(equippedBy) || old(inRoom)[obj.target] != -1
              then unchanged(this)
              else
                var o, ch := obj.target, to.target;
                && carriedBy == old(carriedBy)[o := ch] && chain == old(chain)[ch := [o] + old(chain)[ch]]
                && inObj == old(inObj) && equippedBy == old(equippedBy) && inRoom == old(inRoom)
                && carryingW == old(carryingW)[ch := old(carryingW)[ch] + weight[o]]
                && carryingN == old(carryingN)[ch := old(carryingN)[ch] + 1]
    {
      if obj.Null? || to.Null? {
        return;
      }
      var o, ch := obj.target, to.target;
      if o in inObj || o in carriedBy || o in equippedBy || inRoom[o] != NOWHERE {
        return;
      }
      Bestow(o, ch);
    }

    /** The object's links: the chain runs past it. */
    method Skip(o: Obj, ch: Char)
      requires Linked() && ch in chain && o in chain[ch] && NoRepeats(chain[ch])
      requires forall c, x {:trigger x in chain[c]} :: c in chain && c != ch && x in chain[c] ==> x !in chain[ch]
      modifies `chain, `nextContent, `carrying
      ensures Linked() && chain == old(chain)[ch := Without(old(chain)[ch], o)]
    {
      ghost var s := chain[ch];
      assert Strung(LinkAt(carrying, ch), nextContent, s);
      if carrying[ch] == o {
        carrying := if o in nextContent then carrying[ch := nextContent[o]] else carrying - {ch};
        nextContent := nextContent - {o};
        forall c | c in chain
          ensures Strung(LinkAt(carrying, c), nextContent, if c == ch then s[1..] else chain[c])
        {
          StrungElsewhere(LinkAt(carrying, c), old(nextContent), nextContent, if c == ch then s[1..] else chain[c]);
        }
      } else {
        var tmp := carrying[ch];
        ghost var i := 0;
        while LinkAt(nextContent, tmp) != To(o)
          invariant 0 <= i < |s| && tmp == s[i] && o in s[i + 1..]
          invariant Strung(To(tmp), nextContent, s[i..]) && NoRepeats(s[i..])
          decreases |s| - i
        {
          tmp := nextContent[tmp];
          i := i + 1;
        }
        nextContent := (if o in nextContent then nextContent[tmp := nextContent[o]] else nextContent - {tmp}) - {o};
        forall c | c in chain
          ensures Strung(LinkAt(carrying, c), nextContent, if c == ch then Without(s, o) else chain[c])
        {
          if c == ch {
            StrungPast(LinkAt(carrying, ch), old(nextContent), nextContent, s, i);
          } else {
            StrungElsewhere(LinkAt(carrying, c), old(nextContent), nextContent, chain[c]);
          }
        }
      }
      chain := chain[ch := Without(s, o)];
    }

    method Unhand(o: Obj)
      requires o in weight && o in carriedBy && carriedBy[o] in carryingW && carriedBy[o] in carryingN
      modifies `inObj, `carriedBy, `equippedBy, `carryingW, `carryingN
      ensures inObj == old(inObj) - {o} && carriedBy == old(carriedBy) - {o} && equippedBy == old(equippedBy) - {o}
      ensures var ch := old(carriedBy)[o];
        && carryingW == old(carryingW)[ch := old(carryingW)[ch] - weight[o]]
        && carryingN == old(carryingN)[ch := old(carryingN)[ch] - 1]
    {
      carryingW := carryingW[carriedBy[o] := carryingW[carriedBy[o]] - weight[o]];
      carryingN := carryingN[carriedBy[o] := carryingN[carriedBy[o]] - 1];
      carriedBy := carriedBy - {o};
      equippedBy := equippedBy - {o};
      inObj := inObj - {o};
    }

    method Release(o: Obj)
      requires Complete(State()) && o in weight && o in carriedBy && carriedBy[o] in chain
      requires Linked() && Carried(carriedBy, chain)
      modifies `inObj, `carriedBy, `equippedBy, `chain, `carryingW, `carryingN, `nextContent, `carrying
      ensures Linked() && State() == TakeBack(old(State()), o)
      ensures var ch := old(carriedBy)[o];
        && chain == old(chain)[ch := chain[ch]] && LeftOut(old(chain)[ch], o, chain[ch])
    {
      WithoutLeavesOut(chain[carriedBy[o]], o);
      Skip(o, carriedBy[o]);
      Unhand(o);
    }

    /** objectTakeFromChar. */
    method TakeFromChar(obj: Link<Obj>)
      requires Sane(State()) && Linked() && (obj.To? ==> obj.target in weight)
      modifies `inObj, `carriedBy, `equippedBy, `chain, `carryingW, `carryingN, `nextContent, `carrying
      ensures Linked()
      ensures State() == if obj.To? && obj.target in old(carriedBy) && obj.target !in old(equippedBy)
                         then TakeBack(old(State()), obj.target) else old(State())
      ensures if obj.Null? || obj.target !in old(carriedBy) || obj.target in old(equippedBy) then unchanged(this)
              else
                var o, ch := obj.target, old(carriedBy)[obj.target];
                && carriedBy == old(carriedBy) - {o} && inObj == old(inObj) && equippedBy == old(equippedBy)
                && chain == old(chain)[ch := chain[ch]] && LeftOut(old(chain)[ch], o, chain[ch])
                && carryingW == old(carryingW)[ch := old(carryingW)[ch] - weight[o]]
                && carryingN == old(carryingN)[ch := old(carryingN)[ch] - 1]
    {
      if obj.Null? {
        return;
      }
      var o := obj.target;
      if o !in carriedBy {
        return;
      }
      assert Strung(LinkAt(carrying, carriedBy[o]), nextContent, chain[carriedBy[o]]);
      if carriedBy[o] !in carrying {
        return;
      }
      if o in inObj {
        return;
      }
      if o in equippedBy {
        return;
      }
      Release(o);
    }

    method PerformPut(obj: Link<Obj>, objTo: Link<Obj>)
      requires Sane(State()) && Linked() && Proper(State(), PutOp(obj, objTo))
      modifies this
      ensures Linked() && State() == Effect(old(State()), PutOp(obj, objTo))
    {
      PutInObject(obj, objTo);
    }

    method PerformTakeOut(obj: Link<Obj>)
      requires Sane(State()) && Linked() && Proper(State(), TakeOutOp(obj))
      modifies this
      ensures Linked() && State() == Effect(old(State()), TakeOutOp(obj))
    {
      TakeFromObject(obj);
    }

    method PerformGive(obj: Link<Obj>, to: Link<Char>)
      requires Sane(State()) && Linked() && Proper(State(), GiveOp(obj, to))
      modifies this
      ensures Linked() && State() == Effect(old(State()), GiveOp(obj, to))
    {
      GiveToChar(obj, to);
    }

    method PerformTakeBack(obj: Link<Obj>)
      requires Sane(State()) && Linked() && Proper(State(), TakeBackOp(obj))
      modifies this
      ensures Linked() && State() == Effect(old(State()), TakeBackOp(obj))
    {
      TakeFromChar(obj);
    }

    method Perform(op: Op)
      requires Sane(State()) && Linked() && Proper(State(), op)
      modifies this
      ensures Linked() && State() == Effect(old(State()), op)
    {
      match op
      case PutOp(obj, objTo) => PerformPut(obj, objTo);
      case TakeOutOp(obj) => PerformTakeOut(obj);
      case GiveOp(obj, to) => PerformGive(obj, to);
      case TakeBackOp(obj) => PerformTakeBack(obj);
    }

    method Run(ops: seq<Op>)
      requires Sane(State()) && Linked() && ProperRun(State(), ops)
      modifies this
      ensures Linked() && State() == After(old(State()), ops)
      decreases |ops|
    {
      if ops != [] {
        Perform(ops[0]);
        Run(ops[1..]);
      }
    }
  }
}
