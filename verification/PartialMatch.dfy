/** corefunc/keywords.c: exactly when greedy matching misses nothing. */
module PartialMatch {
  import opened Basics
  import opened KeyOrder
  import opened KeywordMatch

  /** A word that fits everything that begins with it, as against the one text it is. */
  predicate Open(s: Sought, i: nat)
    requires WellFormed(s) && i < |s.words| && s.words[i].Some?
  {
    s.partial && s.length[i] <= |s.words[i].value|
  }

  /** What of the word is compared, up to letter case. */
  function Stem(s: Sought, i: nat): string
    requires WellFormed(s) && i < |s.words| && s.words[i].Some?
  {
    Folded(if s.partial then Take(s.words[i].value, s.length[i]) else s.words[i].value)
  }

  predicate Covers(open: bool, stem: string, text: string) {
    if open then stem <= text else stem == text
  }

  lemma FoldedTake(t: string, n: nat)
    ensures Folded(Take(t, n)) == if |t| <= n then Folded(t) else Folded(t)[..n]
  {
  }

  lemma FitsCovered(s: Sought, i: nat, k: string)
    requires WellFormed(s) && i < |s.words| && s.words[i].Some?
    ensures Fits(s, i, Some(k)) <==> Covers(Open(s, i), Stem(s, i), Folded(k))
  {
    var w, n := s.words[i].value, s.length[i];
    TextEqualUpToCase(w, k);
    if s.partial {
      FoldedTake(w, n);
      FoldedTake(k, n);
    }
  }

  /** The word fits more than another one, and all that the other one fits. */
  predicate Narrows(s: Sought, i: nat, l: nat)
    requires WellFormed(s) && i < |s.words| && l < |s.words| && s.words[i].Some? && s.words[l].Some?
  {
    Open(s, i) && Stem(s, i) <= Stem(s, l) && !(Open(s, l) && Stem(s, l) == Stem(s, i))
  }

  /** No word fits more than a later one and all that one fits. */
  predicate NarrowFirst(s: Sought)
    requires WellFormed(s)
  {
    && None !in s.words
    && forall i, l :: 0 <= i < l < |s.words| ==> !Narrows(s, i, l)
  }

  /** A keyword of its own for every word, and the right number of them. */
  ghost predicate Assignable(s: Sought, ks: seq<Option<string>>)
    requires WellFormed(s)
  {
    (s.exact ==> |s.words| == |ks|) && exists at :: Assigns(s, ks, NoneMarked(|ks|), 0, at)
  }

  // ---- in that order nothing is missed ----

  lemma PrefixesNest(a: string, b: string, t: string)
    requires a <= t && b <= t
    ensures a <= b || b <= a
  {
    if |a| <= |b| {
      assert a == b[..|a|];
    } else {
      assert b == a[..|b|];
    }
  }

  /** If some text fits two words, what fits the earlier one fits the later one. */
  lemma Nested(s: Sought, i: nat, l: nat, both: string, k: string)
    requires WellFormed(s) && i < |s.words| && l < |s.words| && s.words[i].Some? && s.words[l].Some?
    requires !Narrows(s, i, l)
    requires Covers(Open(s, i), Stem(s, i), both) && Covers(Open(s, l), Stem(s, l), both)
    requires Covers(Open(s, i), Stem(s, i), k)
    ensures Covers(Open(s, l), Stem(s, l), k)
  {
    if Open(s, i) && Open(s, l) {
      PrefixesNest(Stem(s, i), Stem(s, l), both);
    }
  }

  lemma FitsNest(s: Sought, i: nat, l: nat, both: Option<string>, k: Option<string>)
    requires WellFormed(s) && NarrowFirst(s) && i < l < |s.words|
    requires Fits(s, i, both) && Fits(s, l, both) && Fits(s, i, k)
    ensures Fits(s, l, k)
  {
    FitsCovered(s, i, both.value);
    FitsCovered(s, l, both.value);
    FitsCovered(s, i, k.value);
    FitsCovered(s, l, k.value);
    Nested(s, i, l, Folded(both.value), Folded(k.value));
  }

  /** An assignment in which the first word takes another keyword that fits it. */
  lemma Exchange(s: Sought, ks: seq<Option<string>>, found: seq<bool>, i: nat, at: seq<nat>, j: nat)
    returns (other: seq<nat>)
    requires WellFormed(s) && NarrowFirst(s) && i < |s.words| && |found| == |ks|
    requires Assigns(s, ks, found, i, at) && j < |ks| && !found[j] && Fits(s, i, ks[j])
    ensures Assigns(s, ks, found, i, other) && other[0] == j
  {
    if j in at {
      var k :| 0 <= k < |at| && at[k] == j;
      if k > 0 {
        FitsNest(s, i, i + k, ks[j], ks[at[0]]);
      }
      other := at[k := at[0]][0 := j];
    } else {
      other := at[0 := j];
    }
  }

  /** After the first word has taken its keyword the others are still assigned. */
  lemma AssignsRest(s: Sought, ks: seq<Option<string>>, found: seq<bool>, i: nat, at: seq<nat>)
    requires WellFormed(s) && i < |s.words| && |found| == |ks| && Assigns(s, ks, found, i, at)
    ensures at[0] < |ks| && Assigns(s, ks, found[at[0] := true], i + 1, at[1..])
  {
    var rest := at[1..];
    assert |at| > 0 && at[0] < |ks|;
    forall k | 0 <= k < |rest|
      ensures rest[k] < |ks| && !found[at[0] := true][rest[k]] && Fits(s, i + 1 + k, ks[rest[k]])
    {
      assert rest[k] == at[k + 1] && at[0] != at[k + 1];
    }
  }

  lemma {:induction false} GreedyMissesNothing(s: Sought, ks: seq<Option<string>>, found: seq<bool>, i: nat,
                                               at: seq<nat>)
    requires WellFormed(s) && NarrowFirst(s) && i <= |s.words| && |found| == |ks| && Assigns(s, ks, found, i, at)
    ensures Greedy(s, ks, found, i)
    decreases |s.words| - i
  {
    if i < |s.words| {
      assert at[0] < |ks| && !found[at[0]] && Fits(s, i, ks[at[0]]);
      var j := FirstFit(s, i, ks, found, 0);
      var other := Exchange(s, ks, found, i, at, j);
      AssignsRest(s, ks, found, i, other);
      GreedyMissesNothing(s, ks, found[j := true], i + 1, other[1..]);
    }
  }

  // ---- in any other order something is ----

  /** Each word takes the first keyword that fits and is left. */
  lemma {:induction false} ChoiceIsFirst(s: Sought, ks: seq<Option<string>>, found: seq<bool>, i: nat, k: nat, p: nat)
    requires WellFormed(s) && i + k < |s.words| && |found| == |ks| && Greedy(s, ks, found, i)
    requires p < Choices(s, ks, found, i)[k] <= |ks| && p < |ks|
    ensures found[p] || p in Choices(s, ks, found, i)[..k] || !Fits(s, i + k, ks[p])
    decreases k
  {
    if k > 0 {
      var j := FirstFit(s, i, ks, found, 0);
      var at, rest := Choices(s, ks, found, i), Choices(s, ks, found[j := true], i + 1);
      ChoiceIsFirst(s, ks, found[j := true], i + 1, k - 1, p);
      assert at[..k] == [j] + rest[..k - 1];
    }
  }

  /** A character that the text does not end in. */
  function Other(t: string): char {
    if t != "" && t[|t| - 1] == 'x' then 'y' else 'x'
  }

  /** A keyword that the word fits: for an open word one that begins with it and goes on. */
  function Sample(s: Sought, k: nat, c: char): string
    requires WellFormed(s) && k < |s.words| && s.words[k].Some?
  {
    if Open(s, k) then Stem(s, k) + [c] else Stem(s, k)
  }

  lemma SampleIsFolded(s: Sought, k: nat, c: char)
    requires WellFormed(s) && k < |s.words| && s.words[k].Some? && (c == 'x' || c == 'y')
    ensures Folded(Sample(s, k, c)) == Sample(s, k, c)
  {
  }

  /** Samples that the later word of a pair fits, and the other ones. */
  predicate InClass(s: Sought, l: nat, k: nat)
    requires WellFormed(s) && None !in s.words && k < |s.words| && l < |s.words|
  {
    Covers(Open(s, l), Stem(s, l), Sample(s, k, Other(Stem(s, l))))
  }

  lemma NotTheSample(t: string, u: string)
    ensures t != u + [Other(t)]
    ensures t <= u + [Other(t)] ==> t <= u
  {
    if t <= u + [Other(t)] && |t| <= |u| {
      assert (u + [Other(t)])[..|t|] == u[..|t|];
    }
  }

  /** What a word of the class fits, the later word of the pair fits. */
  lemma ClassIsBelow(s: Sought, l: nat, k: nat, t: string)
    requires WellFormed(s) && None !in s.words && k < |s.words| && l < |s.words|
    requires InClass(s, l, k) && Covers(Open(s, k), Stem(s, k), t)
    ensures Covers(Open(s, l), Stem(s, l), t)
  {
    NotTheSample(Stem(s, l), Stem(s, k));
  }

  lemma ClassOfPair(s: Sought, i: nat, l: nat)
    requires WellFormed(s) && None !in s.words && i < |s.words| && l < |s.words| && Narrows(s, i, l)
    ensures InClass(s, l, l) && !InClass(s, l, i)
    ensures forall t :: Covers(Open(s, l), Stem(s, l), t) ==> Covers(Open(s, i), Stem(s, i), t)
  {
    NotTheSample(Stem(s, l), Stem(s, i));
  }

  /** The places of one truth value, ascending. */
  function Chosen(mask: seq<bool>, b: bool): seq<nat> {
    if mask == [] then []
    else Chosen(mask[..|mask| - 1], b) + if mask[|mask| - 1] == b then [|mask| - 1] else []
  }

  lemma {:induction false} ChosenMeans(mask: seq<bool>, b: bool)
    ensures forall k :: k in Chosen(mask, b) <==> 0 <= k < |mask| && mask[k] == b
    ensures forall p, q :: 0 <= p < q < |Chosen(mask, b)| ==> Chosen(mask, b)[p] != Chosen(mask, b)[q]
  {
    if mask != [] {
      var front := Chosen(mask[..|mask| - 1], b);
      ChosenMeans(mask[..|mask| - 1], b);
      assert forall p :: 0 <= p < |front| ==> front[p] in front && front[p] < |mask| - 1;
    }
  }

  lemma {:induction false} ChosenSize(mask: seq<bool>)
    ensures |Chosen(mask, true)| + |Chosen(mask, false)| == |mask|
  {
    if mask != [] {
      ChosenSize(mask[..|mask| - 1]);
    }
  }

  lemma {:induction false} BelowSize(img: set<nat>, e: nat)
    requires forall y :: y in img ==> y < e
    ensures |img| <= e
  {
    if e > 0 {
      BelowSize(img - {e - 1}, e - 1);
    } else {
      assert img == {};
    }
  }

  lemma {:induction false} ImageSize(at: seq<nat>, places: seq<nat>) returns (img: set<nat>)
    requires forall p :: 0 <= p < |places| ==> places[p] < |at|
    requires forall p, q :: 0 <= p < q < |places| ==> at[places[p]] != at[places[q]]
    ensures |img| == |places| && forall y :: y in img ==> exists p :: 0 <= p < |places| && y == at[places[p]]
  {
    if places == [] {
      img := {};
    } else {
      var last := |places| - 1;
      var rest := ImageSize(at, places[..last]);
      forall y | y in rest
        ensures exists p :: 0 <= p < last && y == at[places[p]]
      {
        var p :| 0 <= p < |places[..last]| && y == at[places[..last][p]];
        assert places[..last][p] == places[p];
      }
      img := rest + {at[places[last]]};
    }
  }

  /** No more words than keywords find one each among the first e. */
  lemma Pigeonhole(at: seq<nat>, places: seq<nat>, e: nat)
    requires forall k, l :: 0 <= k < l < |at| ==> at[k] != at[l]
    requires forall p :: 0 <= p < |places| ==> places[p] < |at| && at[places[p]] < e
    requires forall p, q :: 0 <= p < q < |places| ==> places[p] != places[q]
    ensures |places| <= e
  {
    var img := ImageSize(at, places);
    BelowSize(img, e);
  }

  function Place(order: seq<nat>, k: nat): (p: nat)
    requires k in order
    ensures p < |order| && order[p] == k
  {
    if order[0] == k then 0 else 1 + Place(order[1..], k)
  }

  /** All words, those of the class first, and a sample of each as keywords in that order. */
  predicate Ordered(s: Sought, l: nat, order: seq<nat>, e: nat)
    requires WellFormed(s) && None !in s.words && l < |s.words|
  {
    && |order| == |s.words| && e <= |order|
    && (forall p :: 0 <= p < |order| ==> order[p] < |s.words| && (InClass(s, l, order[p]) <==> p < e))
    && (forall k :: 0 <= k < |s.words| ==> k in order)
    && (forall p, q :: 0 <= p < q < |order| ==> order[p] != order[q])
  }

  lemma OrderExists(s: Sought, l: nat) returns (order: seq<nat>, e: nat)
    requires WellFormed(s) && None !in s.words && l < |s.words|
    ensures Ordered(s, l, order, e)
  {
    var mask := seq(|s.words|, k requires 0 <= k < |s.words| => InClass(s, l, k));
    var first, second := Chosen(mask, true), Chosen(mask, false);
    ChosenMeans(mask, true);
    ChosenMeans(mask, false);
    ChosenSize(mask);
    order, e := first + second, |first|;
    forall p | 0 <= p < |order|
      ensures order[p] < |s.words| && (InClass(s, l, order[p]) <==> p < e)
    {
      assert order[p] in if p < e then first else second;
    }
    forall k | 0 <= k < |s.words|
      ensures k in order
    {
      assert k in first || k in second;
    }
    forall p, q | 0 <= p < q < |order|
      ensures order[p] != order[q]
    {
      assert order[p] in if p < e then first else second;
      assert order[q] in if q < e then first else second;
    }
  }

  function Samples(s: Sought, l: nat, order: seq<nat>): seq<Option<string>>
    requires WellFormed(s) && None !in s.words && l < |s.words|
    requires forall p :: 0 <= p < |order| ==> order[p] < |s.words|
  {
    seq(|order|, p requires 0 <= p < |order| => Some(Sample(s, order[p], Other(Stem(s, l)))))
  }

  lemma FitsSample(s: Sought, l: nat, order: seq<nat>, e: nat, k: nat, p: nat)
    requires WellFormed(s) && None !in s.words && l < |s.words| && Ordered(s, l, order, e)
    requires k < |s.words| && p < |order|
    ensures Fits(s, k, Samples(s, l, order)[p])
        <==> Covers(Open(s, k), Stem(s, k), Sample(s, order[p], Other(Stem(s, l))))
  {
    SampleIsFolded(s, order[p], Other(Stem(s, l)));
    FitsCovered(s, k, Sample(s, order[p], Other(Stem(s, l))));
  }

  /** Every word fits its own sample. */
  lemma SamplesAreAssignable(s: Sought, l: nat, order: seq<nat>, e: nat)
    requires WellFormed(s) && None !in s.words && l < |s.words| && Ordered(s, l, order, e)
    ensures Assignable(s, Samples(s, l, order))
  {
    var ks := Samples(s, l, order);
    var at := seq(|s.words|, k requires 0 <= k < |s.words| => Place(order, k));
    forall k | 0 <= k < |at|
      ensures at[k] < |ks| && Fits(s, k, ks[at[k]])
    {
      FitsSample(s, l, order, e, k, at[k]);
    }
    forall k, m | 0 <= k < m < |at|
      ensures at[k] != at[m]
    {
      assert order[at[k]] == k && order[at[m]] == m;
    }
    assert Assigns(s, ks, NoneMarked(|ks|), 0, at);
  }

  lemma ClassTakesClass(s: Sought, l: nat, order: seq<nat>, e: nat, k: nat, p: nat)
    requires WellFormed(s) && None !in s.words && l < |s.words| && Ordered(s, l, order, e)
    requires k < |s.words| && p < |order| && InClass(s, l, k) && Fits(s, k, Samples(s, l, order)[p])
    ensures p < e
  {
    FitsSample(s, l, order, e, k, p);
    ClassIsBelow(s, l, k, Sample(s, order[p], Other(Stem(s, l))));
  }

  /** Each word has taken the first keyword that fits and was left by the words before. */
  predicate TakenFirst(s: Sought, ks: seq<Option<string>>, at: seq<nat>)
    requires WellFormed(s) && |at| == |s.words|
  {
    && (forall k :: 0 <= k < |at| ==> at[k] < |ks| && Fits(s, k, ks[at[k]]))
    && (forall k, m :: 0 <= k < m < |at| ==> at[k] != at[m])
    && (forall k, p :: 0 <= k < |at| && 0 <= p < at[k] ==> p in at[..k] || !Fits(s, k, ks[p]))
  }

  lemma ChoicesAreFirst(s: Sought, ks: seq<Option<string>>)
    requires WellFormed(s) && Greedy(s, ks, NoneMarked(|ks|), 0)
    ensures TakenFirst(s, ks, Choices(s, ks, NoneMarked(|ks|), 0))
  {
    var at := Choices(s, ks, NoneMarked(|ks|), 0);
    ChoicesAssign(s, ks, NoneMarked(|ks|), 0);
    forall k, p | 0 <= k < |at| && 0 <= p < at[k]
      ensures p in at[..k] || !Fits(s, k, ks[p])
    {
      ChoiceIsFirst(s, ks, NoneMarked(|ks|), 0, k, p);
    }
  }

  /** The earlier word of the pair takes a keyword of the class. */
  lemma EarlierTakesClass(s: Sought, i: nat, l: nat, order: seq<nat>, e: nat, at: seq<nat>)
    requires WellFormed(s) && None !in s.words && i < l < |s.words| && Narrows(s, i, l) && Ordered(s, l, order, e)
    requires |at| == |s.words| && TakenFirst(s, Samples(s, l, order), at)
    ensures at[i] < e
  {
    ClassOfPair(s, i, l);
    ClassTakesClass(s, l, order, e, l, at[l]);
    FitsSample(s, l, order, e, i, at[l]);
    FitsSample(s, l, order, e, l, at[l]);
    assert Fits(s, i, Samples(s, l, order)[at[l]]);
    assert at[l] !in at[..i];
  }

  /** And so the class is one keyword short. */
  lemma NotAllTakenFirst(s: Sought, i: nat, l: nat, order: seq<nat>, e: nat, at: seq<nat>)
    requires WellFormed(s) && None !in s.words && i < l < |s.words| && Narrows(s, i, l) && Ordered(s, l, order, e)
    requires |at| == |s.words|
    ensures !TakenFirst(s, Samples(s, l, order), at)
  {
    if TakenFirst(s, Samples(s, l, order), at) {
      ClassOfPair(s, i, l);
      EarlierTakesClass(s, i, l, order, e, at);
      var places := order[..e] + [i];
      forall p | 0 <= p < |places|
        ensures places[p] < |at| && at[places[p]] < e
      {
        if p < e {
          ClassTakesClass(s, l, order, e, order[p], at[order[p]]);
        }
      }
      NoRepeat(order, e, i, s, l);
      Pigeonhole(at, places, e);
    }
  }

  lemma NoRepeat(order: seq<nat>, e: nat, i: nat, s: Sought, l: nat)
    requires WellFormed(s) && None !in s.words && i < |s.words| && l < |s.words|
    requires Ordered(s, l, order, e) && !InClass(s, l, i)
    ensures var places := order[..e] + [i]; forall p, q :: 0 <= p < q < |places| ==> places[p] != places[q]
  {
  }

  lemma GreedyFailsOnSamples(s: Sought, i: nat, l: nat, order: seq<nat>, e: nat)
    requires WellFormed(s) && None !in s.words && i < l < |s.words| && Narrows(s, i, l) && Ordered(s, l, order, e)
    ensures !Greedy(s, Samples(s, l, order), NoneMarked(|order|), 0)
  {
    var ks := Samples(s, l, order);
    if Greedy(s, ks, NoneMarked(|ks|), 0) {
      ChoicesAreFirst(s, ks);
      NotAllTakenFirst(s, i, l, order, e, Choices(s, ks, NoneMarked(|ks|), 0));
    }
  }

  /** Greedy matching finds an assignment on every list of keywords that has one, exactly when no
      sought word fits more than a later one and all that the later one fits (or one is nulled out,
      and no list has an assignment). */
  lemma GreedyIsComplete(s: Sought)
    requires WellFormed(s)
    ensures None in s.words || NarrowFirst(s) <==> forall ks :: Assignable(s, ks) ==> Matched(s, ks)
  {
    if None in s.words {
      var k :| 0 <= k < |s.words| && s.words[k] == None;
      forall ks
        ensures !Assignable(s, ks)
      {
        forall at
          ensures !Assigns(s, ks, NoneMarked(|ks|), 0, at)
        {
          assert |at| == |s.words| ==> at[k] >= |ks| || !Fits(s, k, ks[at[k]]);
        }
      }
    } else if NarrowFirst(s) {
      forall ks | Assignable(s, ks)
        ensures Matched(s, ks)
      {
        var at :| Assigns(s, ks, NoneMarked(|ks|), 0, at);
        GreedyMissesNothing(s, ks, NoneMarked(|ks|), 0, at);
      }
    } else {
      var i, l :| 0 <= i < l < |s.words| && Narrows(s, i, l);
      var order, e := OrderExists(s, l);
      SamplesAreAssignable(s, l, order, e);
      GreedyFailsOnSamples(s, i, l, order, e);
      assert Assignable(s, Samples(s, l, order)) && !Matched(s, Samples(s, l, order));
    }
  }

  /** For partial words compared in full: no word is a proper prefix, up to case, of a later one. */
  lemma FullWordsInOrder(s: Sought)
    requires WellFormed(s) && None !in s.words && s.partial
    requires forall i :: 0 <= i < |s.words| ==> s.length[i] == |s.words[i].value|
    ensures NarrowFirst(s) <==>
              forall i, l :: 0 <= i < l < |s.words| ==> !(Folded(s.words[i].value) < Folded(s.words[l].value))
  {
    forall i, l | 0 <= i < l < |s.words|
      ensures Narrows(s, i, l) <==> Folded(s.words[i].value) < Folded(s.words[l].value)
    {
    }
  }
}
