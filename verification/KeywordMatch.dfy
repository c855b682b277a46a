/** corefunc/keywords.c, KeywordsMatch: greedy matching of sought words with keywords. */
module KeywordMatch {
  import opened Basics
  import opened KeyOrder

  /** Words that have been nulled out are None; a partial match compares length[i] characters. */
  datatype Sought = Sought(words: seq<Option<string>>, length: seq<nat>, partial: bool, exact: bool)

  predicate WellFormed(s: Sought) {
    |s.length| == |s.words|
  }

  function Take(s: string, n: nat): string {
    if |s| <= n then s else s[..n]
  }

  /** strncasecmp finds no difference in n characters; strcasecmp finds none at all. */
  predicate Fits(s: Sought, i: nat, k: Option<string>)
    requires WellFormed(s) && i < |s.words|
  {
    && s.words[i].Some? && k.Some?
    && if s.partial then Folded(Take(s.words[i].value, s.length[i])) == Folded(Take(k.value, s.length[i]))
       else CompareText(s.words[i].value, k.value) == 0
  }

  /** In characters: both end together, or neither before its n-th, and up to there they agree up to
      letter case. */
  predicate AgreeUpTo(w: string, k: string, n: nat) {
    && (|w| == |k| || (|w| >= n && |k| >= n))
    && forall c :: 0 <= c < n && c < |w| && c < |k| ==> Lower(w[c]) == Lower(k[c])
  }

  /** A word fits a keyword that it agrees with all through, or as far as a partial match looks. */
  lemma FitsMeans(s: Sought, i: nat, k: Option<string>)
    requires WellFormed(s) && i < |s.words|
    ensures Fits(s, i, k) <==>
              && s.words[i].Some? && k.Some?
              && var w := s.words[i].value;
                 if s.partial then AgreeUpTo(w, k.value, s.length[i])
                 else |w| == |k.value| && AgreeUpTo(w, k.value, |w|)
  {
    if s.words[i].Some? && k.Some? {
      var w := s.words[i].value;
      if s.partial {
        TakenAgree(w, k.value, s.length[i]);
      } else {
        TextEqualUpToCase(w, k.value);
        TakenAgree(w, k.value, |w|);
        assert Folded(w) == Folded(k.value) ==> |w| == |k.value|;
      }
    }
  }

  lemma TakenAgree(w: string, k: string, n: nat)
    ensures Folded(Take(w, n)) == Folded(Take(k, n)) <==> AgreeUpTo(w, k, n)
  {
    var a, b := Folded(Take(w, n)), Folded(Take(k, n));
    if a == b {
      assert |a| == |b|;
      forall c | 0 <= c < n && c < |w| && c < |k|
        ensures Lower(w[c]) == Lower(k[c])
      {
        assert a[c] == b[c];
      }
    }
  }

  /** The first keyword from j on that is not marked and fits, or their number. */
  function FirstFit(s: Sought, i: nat, ks: seq<Option<string>>, found: seq<bool>, j: nat): (r: nat)
    requires WellFormed(s) && i < |s.words| && |found| == |ks| && j <= |ks|
    ensures j <= r <= |ks|
    ensures r < |ks| ==> !found[r] && Fits(s, i, ks[r])
    ensures forall k :: j <= k < r ==> found[k] || !Fits(s, i, ks[k])
    decreases |ks| - j
  {
    if j == |ks| then j
    else if !found[j] && Fits(s, i, ks[j]) then j
    else FirstFit(s, i, ks, found, j + 1)
  }

  /** Whether every word from i on gets a keyword, each taking the first that fits. */
  predicate Greedy(s: Sought, ks: seq<Option<string>>, found: seq<bool>, i: nat)
    requires WellFormed(s) && i <= |s.words| && |found| == |ks|
    decreases |s.words| - i
  {
    i == |s.words|
    || (var j := FirstFit(s, i, ks, found, 0);
        j < |ks| && Greedy(s, ks, found[j := true], i + 1))
  }

  function NoneMarked(n: nat): seq<bool> {
    seq(n, _ => false)
  }

  predicate Matched(s: Sought, ks: seq<Option<string>>)
    requires WellFormed(s)
  {
    (s.exact ==> |s.words| == |ks|) && Greedy(s, ks, NoneMarked(|ks|), 0)
  }

  // ---- whole words, and words cut to one length ----

  /** What of a word is compared: all of it, or its first cut characters. */
  function Fold(w: Option<string>, cut: Option<nat>): Option<string> {
    if w.None? then None else Some(Folded(if cut.None? then w.value else Take(w.value, cut.value)))
  }

  function FoldAll(ws: seq<Option<string>>, cut: Option<nat>): seq<Option<string>> {
    seq(|ws|, i requires 0 <= i < |ws| => Fold(ws[i], cut))
  }

  /** Whole words are sought, or all words are sought by the same number of characters. */
  predicate Uniform(s: Sought, cut: Option<nat>) {
    && WellFormed(s)
    && (cut.None? ==> !s.partial)
    && (cut.Some? ==> s.partial && forall i :: 0 <= i < |s.length| ==> s.length[i] == cut.value)
  }

  /** The keywords that are marked, up to letter case. */
  ghost function Marked(ks: seq<Option<string>>, found: seq<bool>, mark: bool, cut: Option<nat>)
    : multiset<Option<string>>
    requires |found| == |ks|
  {
    if ks == [] then multiset{}
    else Marked(ks[1..], found[1..], mark, cut) + if found[0] == mark then multiset{Fold(ks[0], cut)} else multiset{}
  }

  lemma FoldFirst(ks: seq<Option<string>>, cut: Option<nat>)
    requires ks != []
    ensures multiset(FoldAll(ks, cut)) == multiset{Fold(ks[0], cut)} + multiset(FoldAll(ks[1..], cut))
  {
    assert FoldAll(ks, cut) == [Fold(ks[0], cut)] + FoldAll(ks[1..], cut);
  }

  lemma SuffixFirst(ws: seq<Option<string>>, i: nat, cut: Option<nat>)
    requires i < |ws|
    ensures multiset(FoldAll(ws[i..], cut)) == multiset{Fold(ws[i], cut)} + multiset(FoldAll(ws[i + 1..], cut))
    ensures None in ws[i..] <==> ws[i].None? || None in ws[i + 1..]
  {
    FoldFirst(ws[i..], cut);
    assert ws[i..] == [ws[i]] + ws[i + 1..] && ws[i..][1..] == ws[i + 1..];
  }

  lemma {:induction false} MarkedAndUnmarked(ks: seq<Option<string>>, found: seq<bool>, cut: Option<nat>)
    requires |found| == |ks|
    ensures Marked(ks, found, true, cut) + Marked(ks, found, false, cut) == multiset(FoldAll(ks, cut))
  {
    if ks != [] {
      MarkedAndUnmarked(ks[1..], found[1..], cut);
      FoldFirst(ks, cut);
    }
  }

  lemma {:induction false} MarkOne(ks: seq<Option<string>>, found: seq<bool>, j: nat, cut: Option<nat>)
    requires |found| == |ks| && j < |ks| && !found[j]
    ensures Marked(ks, found[j := true], true, cut) == Marked(ks, found, true, cut) + multiset{Fold(ks[j], cut)}
  {
    if j == 0 {
      assert found[j := true][1..] == found[1..];
    } else {
      assert found[j := true][1..] == found[1..][j - 1 := true];
      MarkOne(ks[1..], found[1..], j - 1, cut);
    }
  }

  /** An unmarked keyword is found when there is one. */
  lemma {:induction false} UnmarkedIsThere(ks: seq<Option<string>>, found: seq<bool>, w: Option<string>,
                                           cut: Option<nat>)
    returns (j: nat)
    requires |found| == |ks| && w in Marked(ks, found, false, cut)
    ensures j < |ks| && !found[j] && Fold(ks[j], cut) == w
  {
    if !found[0] && Fold(ks[0], cut) == w {
      j := 0;
    } else {
      var k := UnmarkedIsThere(ks[1..], found[1..], w, cut);
      j := k + 1;
    }
  }

  lemma {:induction false} NoneMarkedAtFirst(ks: seq<Option<string>>, cut: Option<nat>)
    ensures Marked(ks, NoneMarked(|ks|), true, cut) == multiset{}
  {
    if ks != [] {
      assert NoneMarked(|ks|)[1..] == NoneMarked(|ks| - 1);
      NoneMarkedAtFirst(ks[1..], cut);
    }
  }

  lemma FitsUpToCase(s: Sought, i: nat, k: Option<string>, cut: Option<nat>)
    requires Uniform(s, cut) && i < |s.words|
    ensures Fits(s, i, k) <==> k.Some? && Fold(s.words[i], cut) == Fold(k, cut)
  {
    if s.words[i].Some? && k.Some? {
      TextEqualUpToCase(s.words[i].value, k.value);
    }
  }

  /** A word takes an equal one, and one is left for it just when the keywords hold more of its
      kind than have been taken. */
  lemma UniformFit(s: Sought, ks: seq<Option<string>>, found: seq<bool>, i: nat, cut: Option<nat>)
    requires Uniform(s, cut) && i < |s.words| && |found| == |ks|
    ensures var j := FirstFit(s, i, ks, found, 0); var w := Fold(s.words[i], cut);
      && (j < |ks| <==> w.Some? && multiset(FoldAll(ks, cut))[w] > Marked(ks, found, true, cut)[w])
      && (j < |ks| ==> Fold(ks[j], cut) == w)
  {
    var j := FirstFit(s, i, ks, found, 0);
    var w := Fold(s.words[i], cut);
    MarkedAndUnmarked(ks, found, cut);
    assert multiset(FoldAll(ks, cut))[w] == Marked(ks, found, true, cut)[w] + Marked(ks, found, false, cut)[w];
    if j < |ks| {
      FitsUpToCase(s, i, ks[j], cut);
      MarkOne(ks, found, j, cut);
      MarkedAndUnmarked(ks, found[j := true], cut);
    } else if w.Some? && w in Marked(ks, found, false, cut) {
      var k := UnmarkedIsThere(ks, found, w, cut);
      FitsUpToCase(s, i, ks[k], cut);
    }
  }

  /** Greedy matching of uniform words succeeds just when no kind of word is sought more often than
      the keywords hold it. */
  lemma {:induction false} GreedyIsInclusion(s: Sought, ks: seq<Option<string>>, found: seq<bool>, i: nat,
                                             cut: Option<nat>)
    requires Uniform(s, cut) && i <= |s.words| && |found| == |ks|
    ensures Greedy(s, ks, found, i) <==>
              && None !in s.words[i..]
              && Marked(ks, found, true, cut) + multiset(FoldAll(s.words[i..], cut)) <= multiset(FoldAll(ks, cut))
    decreases |s.words| - i
  {
    MarkedAndUnmarked(ks, found, cut);
    if i < |s.words| {
      var w := Fold(s.words[i], cut);
      SuffixFirst(s.words, i, cut);
      UniformFit(s, ks, found, i, cut);
      var j := FirstFit(s, i, ks, found, 0);
      if j < |ks| {
        MarkOne(ks, found, j, cut);
        GreedyIsInclusion(s, ks, found[j := true], i + 1, cut);
      } else if w.Some? {
        assert (Marked(ks, found, true, cut) + multiset(FoldAll(s.words[i..], cut)))[w] > multiset(FoldAll(ks, cut))[w];
      }
    }
  }

  /** Matching by whole words, or by words cut to one length: the sought words are a sub-multiset of
      the keywords up to case, and the same multiset when the match is exact. */
  lemma UniformMatch(s: Sought, ks: seq<Option<string>>, cut: Option<nat>)
    requires Uniform(s, cut)
    ensures !s.exact ==>
              (Matched(s, ks) <==> None !in s.words && multiset(FoldAll(s.words, cut)) <= multiset(FoldAll(ks, cut)))
    ensures s.exact ==>
              (Matched(s, ks) <==> None !in s.words && multiset(FoldAll(s.words, cut)) == multiset(FoldAll(ks, cut)))
  {
    GreedyIsInclusion(s, ks, NoneMarked(|ks|), 0, cut);
    NoneMarkedAtFirst(ks, cut);
    assert s.words[0..] == s.words;
    var a, b := multiset(FoldAll(s.words, cut)), multiset(FoldAll(ks, cut));
    if a <= b && |s.words| == |ks| {
      SameSize(a, b);
    }
  }

  lemma SameSize(a: multiset<Option<string>>, b: multiset<Option<string>>)
    requires a <= b && |a| == |b|
    ensures a == b
  {
    assert b == a + (b - a);
  }

  // ---- partial matches ----

  /** Every word from i on has a keyword of its own that it fits. */
  ghost predicate Assigns(s: Sought, ks: seq<Option<string>>, found: seq<bool>, i: nat, at: seq<nat>)
    requires WellFormed(s) && i <= |s.words| && |found| == |ks|
  {
    && |at| == |s.words| - i
    && (forall k :: 0 <= k < |at| ==> at[k] < |ks| && !found[at[k]] && Fits(s, i + k, ks[at[k]]))
    && (forall k, l :: 0 <= k < l < |at| ==> at[k] != at[l])
  }

  /** The keywords that the words from i on take. */
  function Choices(s: Sought, ks: seq<Option<string>>, found: seq<bool>, i: nat): (at: seq<nat>)
    requires WellFormed(s) && i <= |s.words| && |found| == |ks| && Greedy(s, ks, found, i)
    ensures |at| == |s.words| - i
    decreases |s.words| - i
  {
    if i == |s.words| then []
    else
      var j := FirstFit(s, i, ks, found, 0);
      [j] + Choices(s, ks, found[j := true], i + 1)
  }

  lemma {:induction false} ChoicesAssign(s: Sought, ks: seq<Option<string>>, found: seq<bool>, i: nat)
    requires WellFormed(s) && i <= |s.words| && |found| == |ks| && Greedy(s, ks, found, i)
    ensures Assigns(s, ks, found, i, Choices(s, ks, found, i))
    decreases |s.words| - i
  {
    if i < |s.words| {
      var j := FirstFit(s, i, ks, found, 0);
      ChoicesAssign(s, ks, found[j := true], i + 1);
      var at, rest := Choices(s, ks, found, i), Choices(s, ks, found[j := true], i + 1);
      assert forall k :: 0 < k < |at| ==> at[k] == rest[k - 1];
    }
  }

  /** A match, partial or not, gives every word a keyword of its own. */
  lemma MatchAssigns(s: Sought, ks: seq<Option<string>>)
    requires WellFormed(s) && Matched(s, ks)
    ensures Assigns(s, ks, NoneMarked(|ks|), 0, Choices(s, ks, NoneMarked(|ks|), 0))
  {
    ChoicesAssign(s, ks, NoneMarked(|ks|), 0);
  }

  /** A full-length partial match is a prefix up to letter case. */
  lemma FitIsPrefix(s: Sought, i: nat, k: Option<string>)
    requires WellFormed(s) && i < |s.words| && s.partial && s.words[i].Some? && s.length[i] == |s.words[i].value|
    ensures Fits(s, i, k) <==> k.Some? && Folded(s.words[i].value) <= Folded(k.value)
  {
    if k.Some? {
      var w, n := s.words[i].value, s.length[i];
      if |k.value| >= n {
        assert Folded(Take(k.value, n)) == Folded(k.value)[..n];
      }
    }
  }

  /** Without one length the other way round fails: "a" takes "ab", and nothing is left for "ab". */
  lemma GreedyCanMiss()
    ensures var s := Sought([Some("a"), Some("ab")], [1, 2], true, false);
            var ks := [Some("ab"), Some("a")];
      !Matched(s, ks) && Assigns(s, ks, NoneMarked(2), 0, [1, 0])
  {
    var s := Sought([Some("a"), Some("ab")], [1, 2], true, false);
    var ks := [Some("ab"), Some("a")];
    assert Take("ab", 1) == "a" && Take("a", 2) == "a" && Take("ab", 2) == "ab";
    assert Fits(s, 0, ks[0]) && Fits(s, 0, ks[1]) && Fits(s, 1, ks[0]);
    assert |Folded("ab")| == 2 && |Folded("a")| == 1;
    assert !Fits(s, 1, ks[1]);
    assert FirstFit(s, 0, ks, NoneMarked(2), 0) == 0;
    assert FirstFit(s, 1, ks, NoneMarked(2)[0 := true], 0) == 2;
  }

  // ---- in place ----

  /** The inner loop: marks and returns the first keyword that fits. */
  method Claim(s: Sought, i: nat, ks: seq<Option<string>>, found: array<bool>) returns (j: nat)
    requires WellFormed(s) && i < |s.words| && found.Length == |ks|
    modifies found
    ensures j == FirstFit(s, i, ks, old(found[..]), 0)
    ensures found[..] == if j < |ks| then old(found[..])[j := true] else old(found[..])
  {
    j := 0;
    while j < |ks|
      invariant 0 <= j <= |ks| && found[..] == old(found[..])
      invariant FirstFit(s, i, ks, found[..], j) == FirstFit(s, i, ks, found[..], 0)
    {
      if s.words[i].Some? && ks[j].Some? && !found[j] && Fits(s, i, ks[j]) {
        found[j] := true;
        return;
      }
      j := j + 1;
    }
  }

  /** The words before i have taken these keywords, and the match hangs on the others. */
  ghost predicate SoFar(s: Sought, ks: seq<Option<string>>, found: seq<bool>, i: nat, taken: seq<nat>) {
    && WellFormed(s) && i <= |s.words| && |found| == |ks|
    && Greedy(s, ks, found, i) == Greedy(s, ks, NoneMarked(|ks|), 0)
    && (Greedy(s, ks, found, i) ==>
          Choices(s, ks, NoneMarked(|ks|), 0) == taken + Choices(s, ks, found, i))
    && forall j :: 0 <= j < |ks| ==> (found[j] <==> j in taken)
  }

  lemma OneMoreTaken(s: Sought, ks: seq<Option<string>>, found: seq<bool>, i: nat, taken: seq<nat>)
    requires SoFar(s, ks, found, i, taken) && i < |s.words|
    ensures var j := FirstFit(s, i, ks, found, 0);
      if j < |ks| then SoFar(s, ks, found[j := true], i + 1, taken + [j]) else !Greedy(s, ks, NoneMarked(|ks|), 0)
  {
    var j := FirstFit(s, i, ks, found, 0);
    if j < |ks| && Greedy(s, ks, found, i) {
      var rest := Choices(s, ks, found[j := true], i + 1);
      assert taken + ([j] + rest) == taken + [j] + rest;
    }
  }

  /** KeywordsMatch. */
  method Match(s: Sought, ks: seq<Option<string>>, found: array?<bool>) returns (ok: bool)
    requires WellFormed(s) && (found != null ==> found.Length == |ks|)
    modifies found
    ensures ok == (found != null && Matched(s, ks))
    ensures ok ==> forall j :: 0 <= j < |ks| ==> (found[j] <==> j in Choices(s, ks, NoneMarked(|ks|), 0))
  {
    if found == null {
      return false;
    }
    forall j | 0 <= j < found.Length {
      found[j] := false;
    }
    if s.exact && |s.words| != |ks| {
      return false;
    }
    assert found[..] == NoneMarked(|ks|);
    var i := 0;
    ghost var taken: seq<nat> := [];
    while i < |s.words|
      invariant SoFar(s, ks, found[..], i, taken)
    {
      OneMoreTaken(s, ks, found[..], i, taken);
      var j := Claim(s, i, ks, found);
      if j >= |ks| {
        return false;
      }
      taken := taken + [j];
      i := i + 1;
    }
    return true;
  }
}
