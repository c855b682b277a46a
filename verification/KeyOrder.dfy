/** The key comparison functions that BalancedBTreeCreate chooses between. */
module KeyOrder {

  datatype KeyType = IntKey | StringKey | PthreadKey | PointerKey

  /** What a key pointer leads to: a machine integer, or a C string (which has no NUL). */
  datatype Key = Number(n: int) | Text(s: string)

  /** tolower in the C locale. */
  function Lower(c: char): char {
    if 'A' <= c <= 'Z' then c - 'A' + 'a' else c
  }

  function Clamp(d: int): int {
    if d > 1 then 1 else if d < -1 then -1 else d
  }

  const TWO31: int := 0x8000_0000
  const TWO32: int := 0x1_0000_0000
  const TWO63: int := 0x8000_0000_0000_0000
  const TWO64: int := 0x1_0000_0000_0000_0000

  /** Half the number of values of the signed machine word a difference is held in. */
  function Half(kind: KeyType): int {
    if kind.IntKey? then TWO31 else TWO63
  }

  /** A difference of two keys as that machine word holds it. */
  function Wrapped(kind: KeyType, d: int): (w: int)
    ensures -Half(kind) <= w < Half(kind)
    ensures -Half(kind) <= d < Half(kind) ==> w == d
    ensures Half(kind) <= d < 3 * Half(kind) ==> w == d - 2 * Half(kind)
    ensures -3 * Half(kind) <= d < -Half(kind) ==> w == d + 2 * Half(kind)
  {
    if kind.IntKey? then (d + TWO31) % TWO32 - TWO31 else (d + TWO63) % TWO64 - TWO63
  }

  /** strcasecmp. */
  function CompareText(l: string, r: string): int {
    if l == [] && r == [] then 0
    else if l == [] then -1
    else if r == [] then 1
    else if Lower(l[0]) < Lower(r[0]) then -1
    else if Lower(l[0]) > Lower(r[0]) then 1
    else CompareText(l[1..], r[1..])
  }

  /** strncasecmp over the length of the left string. */
  function ComparePartialText(l: string, r: string): int {
    if l == [] then 0
    else if r == [] then 1
    else if Lower(l[0]) < Lower(r[0]) then -1
    else if Lower(l[0]) > Lower(r[0]) then 1
    else ComparePartialText(l[1..], r[1..])
  }

  function Compare(kind: KeyType, l: Key, r: Key): int {
    match (l, r)
    case (Number(a), Number(b)) => Clamp(Wrapped(kind, a - b))
    case (Text(a), Text(b)) => CompareText(a, b)
    case _ => 0
  }

  /** Only string keys have a second way to compare. */
  function CompareAlternate(kind: KeyType, l: Key, r: Key): int {
    if kind.StringKey? && l.Text? && r.Text? then ComparePartialText(l.s, r.s)
    else Compare(kind, l, r)
  }

  /** The comparison orders the keys of d. */
  ghost predicate Orders(kind: KeyType, d: iset<Key>) {
    && (forall a, b :: a in d && b in d ==> (Compare(kind, a, b) < 0 <==> Compare(kind, b, a) > 0))
    && (forall a, b, c :: a in d && b in d && c in d && Compare(kind, a, b) <= 0 && Compare(kind, b, c) <= 0 ==>
          Compare(kind, a, c) <= 0)
  }

  // ----- Numbers

  /** The sign of the machine difference of two keys of one word is their order exactly when the
      difference fits into half the word's range: the subtraction wraps otherwise. */
  lemma CompareIsExact(kind: KeyType, low: int, a: int, b: int)
    requires low <= a < low + 2 * Half(kind) && low <= b < low + 2 * Half(kind)
    ensures (Compare(kind, Number(a), Number(b)) < 0 <==> a < b) &&
            (Compare(kind, Number(a), Number(b)) == 0 <==> a == b) <==>
            -Half(kind) <= a - b < Half(kind)
  {
    var w := Wrapped(kind, a - b);
    if a - b >= Half(kind) {
      assert w == a - b - 2 * Half(kind);
    } else if a - b < -Half(kind) {
      assert w == a - b + 2 * Half(kind);
    }
  }

  /** So the comparison is no order on all keys of a word: it can run in a circle. */
  lemma CompareRunsInACircle(kind: KeyType, low: int)
    ensures var third := Half(kind) / 4 * 3;
      var a, b, c := Number(low), Number(low + third), Number(low + 2 * third);
      && low + 2 * third < low + 2 * Half(kind)
      && Compare(kind, a, b) < 0
      && Compare(kind, b, c) < 0
      && Compare(kind, c, a) < 0
  {
    var third := Half(kind) / 4 * 3;
    assert Wrapped(kind, 2 * third) == 2 * third - 2 * Half(kind);
  }

  /** A window of integers within which no difference wraps. */
  ghost function Window(kind: KeyType, low: int): iset<Key> {
    iset n: int | low <= n < low + Half(kind) :: Number(n)
  }

  /** Within a window numbers compare as they are: by size, and equal only to themselves. */
  lemma NumbersInWindow(kind: KeyType, low: int, a: int, b: int)
    requires low <= a < low + Half(kind) && low <= b < low + Half(kind)
    ensures Compare(kind, Number(a), Number(b)) == if a < b then -1 else if a > b then 1 else 0
  {
    assert Wrapped(kind, a - b) == a - b;
  }

  lemma WindowsAreOrdered(kind: KeyType, low: int)
    requires !kind.StringKey?
    ensures Orders(kind, Window(kind, low))
    ensures forall a, b :: a in Window(kind, low) && b in Window(kind, low) ==>
              (Compare(kind, a, b) < 0 <==> a.n < b.n) && (Compare(kind, a, b) == 0 <==> a == b)
  {
    forall a, b | a in Window(kind, low) && b in Window(kind, low)
      ensures Compare(kind, a, b) == if a.n < b.n then -1 else if a.n > b.n then 1 else 0
    {
      NumbersInWindow(kind, low, a.n, b.n);
    }
  }

  // ----- Strings

  /** Only the characters 65 to 90 change, to those 32 further on. */
  lemma LowerCodes(c: char)
    ensures Lower(c) as int == if 65 <= c as int <= 90 then c as int + 32 else c as int
  {
  }

  /** Two strings up to letter case. */
  function Folded(s: string): string {
    seq(|s|, i requires 0 <= i < |s| => Lower(s[i]))
  }

  lemma FoldedStep(s: string)
    requires s != []
    ensures Folded(s) == [Lower(s[0])] + Folded(s[1..])
  {
  }

  lemma {:induction false} TextEqualUpToCase(l: string, r: string)
    ensures CompareText(l, r) == 0 <==> Folded(l) == Folded(r)
    decreases |l|
  {
    if l != [] && r != [] {
      FoldedStep(l);
      FoldedStep(r);
      TextEqualUpToCase(l[1..], r[1..]);
      assert Folded(l)[1..] == Folded(l[1..]) && Folded(r)[1..] == Folded(r[1..]);
    }
  }

  lemma {:induction false} TextAntisymmetric(l: string, r: string)
    ensures CompareText(l, r) == -CompareText(r, l)
    decreases |l|
  {
    if l != [] && r != [] {
      TextAntisymmetric(l[1..], r[1..]);
    }
  }

  lemma {:induction false} TextTransitive(a: string, b: string, c: string)
    requires CompareText(a, b) <= 0 && CompareText(b, c) <= 0
    ensures CompareText(a, c) <= 0
    decreases |a|
  {
    if a != [] && b != [] && c != [] && Lower(a[0]) == Lower(b[0]) == Lower(c[0]) {
      TextTransitive(a[1..], b[1..], c[1..]);
    }
  }

  /** Where two strings differ first, one has the lesser character there, or none. */
  ghost predicate Precedes(a: string, b: string) {
    exists k: nat :: k <= |a| && k < |b| && a[..k] == b[..k] && (k < |a| ==> a[k] < b[k])
  }

  lemma PrecedesStep(x: char, a: string, y: char, b: string)
    ensures Precedes([x] + a, [y] + b) <==> x < y || (x == y && Precedes(a, b))
  {
    var s, t := [x] + a, [y] + b;
    if Precedes(s, t) {
      var k: nat :| k <= |s| && k < |t| && s[..k] == t[..k] && (k < |s| ==> s[k] < t[k]);
      if k > 0 {
        assert s[..k][0] == x && t[..k][0] == y;
        assert a[..k - 1] == s[..k][1..] && b[..k - 1] == t[..k][1..];
        assert Precedes(a, b);
      }
    }
    if x < y {
      assert s[..0] == t[..0];
    } else if x == y && Precedes(a, b) {
      var k: nat :| k <= |a| && k < |b| && a[..k] == b[..k] && (k < |a| ==> a[k] < b[k]);
      assert s[..k + 1] == [x] + a[..k] && t[..k + 1] == [y] + b[..k];
    }
  }

  /** String comparison is dictionary order up to letter case. */
  lemma {:induction false} TextComparesAsInDictionary(l: string, r: string)
    ensures CompareText(l, r) < 0 <==> Precedes(Folded(l), Folded(r))
    ensures CompareText(l, r) > 0 <==> Precedes(Folded(r), Folded(l))
    decreases |l|
  {
    if l != [] && r != [] {
      FoldedStep(l);
      FoldedStep(r);
      TextComparesAsInDictionary(l[1..], r[1..]);
      PrecedesStep(Lower(l[0]), Folded(l[1..]), Lower(r[0]), Folded(r[1..]));
      PrecedesStep(Lower(r[0]), Folded(r[1..]), Lower(l[0]), Folded(l[1..]));
    } else if r != [] {
      assert Folded(l)[..0] == Folded(r)[..0];
    } else if l != [] {
      assert Folded(r)[..0] == Folded(l)[..0];
    }
  }

  ghost function Texts(): iset<Key> {
    iset k: Key | k.Text?
  }

  lemma TextsAreOrdered()
    ensures Orders(StringKey, Texts())
  {
    forall a, b | a in Texts() && b in Texts()
      ensures Compare(StringKey, a, b) < 0 <==> Compare(StringKey, b, a) > 0
    {
      TextAntisymmetric(a.s, b.s);
    }
    forall a, b, c | a in Texts() && b in Texts() && c in Texts() &&
                     Compare(StringKey, a, b) <= 0 && Compare(StringKey, b, c) <= 0
      ensures Compare(StringKey, a, c) <= 0
    {
      TextTransitive(a.s, b.s, c.s);
    }
  }

  // ----- Prefix search

  lemma PrefixStep(a: char, s: string, b: char, t: string)
    ensures [a] + s <= [b] + t <==> a == b && s <= t
  {
    assert ([a] + s)[0] == a && ([b] + t)[0] == b;
    assert ([a] + s)[1..] == s && ([b] + t)[1..] == t;
    if a == b && s <= t {
      assert [b] + t == [a] + s + t[|s|..];
    }
    if [a] + s <= [b] + t {
      assert forall i :: 0 <= i < |s| ==> s[i] == ([a] + s)[i + 1] == ([b] + t)[i + 1] == t[i];
    }
  }

  /** Two keys match in a prefix search when the first is a prefix of the second up to case. */
  lemma {:induction false} PartialIsPrefix(l: string, r: string)
    ensures ComparePartialText(l, r) == 0 <==> Folded(l) <= Folded(r)
    decreases |l|
  {
    if l != [] && r != [] {
      FoldedStep(l);
      FoldedStep(r);
      PartialIsPrefix(l[1..], r[1..]);
      PrefixStep(Lower(l[0]), Folded(l[1..]), Lower(r[0]), Folded(r[1..]));
    }
  }

  /** The partial comparison looks at as much of the right string as the left one is long. */
  lemma {:induction false} PartialComparesFront(l: string, r: string)
    ensures ComparePartialText(l, r) == CompareText(l, if |l| <= |r| then r[..|l|] else r)
    decreases |l|
  {
    if l != [] && r != [] {
      PartialComparesFront(l[1..], r[1..]);
      if |l| <= |r| {
        assert r[..|l|][1..] == r[1..][..|l| - 1];
      }
    }
  }

  /** Along keys in ascending order, a prefix search moves one way only. */
  lemma {:induction false} PartialFollowsOrder(l: string, a: string, b: string)
    requires CompareText(a, b) <= 0
    ensures ComparePartialText(l, a) < 0 ==> ComparePartialText(l, b) < 0
    ensures ComparePartialText(l, b) > 0 ==> ComparePartialText(l, a) > 0
    decreases |l|
  {
    if l != [] && a != [] && b != [] && Lower(a[0]) == Lower(b[0]) {
      PartialFollowsOrder(l[1..], a[1..], b[1..]);
    }
  }
}
