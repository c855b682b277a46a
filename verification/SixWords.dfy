/** util/btoe.c: eight bytes as six English words and back (section 6 of RFC 2289). */
module SixWords {
  import opened Basics
  import opened WordBits

  // ----- The dictionary

  function Compare(a: string, b: string): int {
    if a == [] && b == [] then 0
    else if a == [] then -1
    else if b == [] then 1
    else if a[0] < b[0] then -1
    else if a[0] > b[0] then 1
    else Compare(a[1..], b[1..])
  }

  lemma {:induction false} CompareIsEquality(a: string, b: string)
    ensures Compare(a, b) == 0 <==> a == b
    decreases |a|
  {
    if a != [] && b != [] {
      CompareIsEquality(a[1..], b[1..]);
      assert a == [a[0]] + a[1..] && b == [b[0]] + b[1..];
    }
  }

  lemma {:induction false} CompareAntisymmetric(a: string, b: string)
    ensures Compare(a, b) == -Compare(b, a)
    decreases |a|
  {
    if a != [] && b != [] {
      CompareAntisymmetric(a[1..], b[1..]);
    }
  }

  ghost predicate Sorted(d: seq<string>, low: nat, high: nat)
    requires high < |d|
  {
    forall i, j :: low <= i < j <= high ==> Compare(d[i], d[j]) < 0
  }

  predicate IsUpper(c: char) { 'A' <= c <= 'Z' }
  predicate IsLower(c: char) { 'a' <= c <= 'z' }
  predicate IsAlpha(c: char) { IsUpper(c) || IsLower(c) }

  /** What the search relies on: the dictionary of Appendix D of RFC 2289 has it. */
  ghost predicate Dictionary(d: seq<string>) {
    && |d| == 2048
    && (forall i :: 0 <= i < 571 ==> 1 <= |d[i]| <= 3)
    && (forall i :: 571 <= i < 2048 ==> |d[i]| == 4)
    && (forall i, j :: 0 <= i < 2048 && 0 <= j < |d[i]| ==> IsUpper(d[i][j]))
    && Sorted(d, 0, 570) && Sorted(d, 571, 2047)
  }

  /** wsrch. */
  method WordSearch(d: seq<string>, w: string, first: nat, last: nat) returns (v: int)
    requires first <= last < |d| && Sorted(d, first, last)
    ensures v >= 0 ==> first <= v <= last && d[v] == w
    ensures v < 0 ==> v == -1 && forall i :: first <= i <= last ==> d[i] != w
  {
    var low, high := first, last;
    while true
      invariant first <= low <= high <= last
      invariant forall i :: first <= i < low ==> d[i] != w
      invariant forall i :: high < i <= last ==> d[i] != w
      decreases high - low
    {
      var i := (low + high) / 2;
      var j := Compare(w, d[i]);
      CompareIsEquality(w, d[i]);
      if j == 0 {
        return i;
      }
      if high == low + 1 {
        CompareIsEquality(w, d[high]);
        if Compare(w, d[high]) == 0 {
          return high;
        } else {
          return -1;
        }
      }
      if low >= high {
        return -1;
      }
      if j < 0 {
        forall k | i < k <= last ensures d[k] != w {
          CompareAntisymmetric(d[i], w);
          CompareAntisymmetric(d[i], d[k]);
        }
        high := i;
      } else {
        forall k | first <= k < i ensures d[k] != w {
          CompareAntisymmetric(d[i], w);
        }
        low := i;
      }
    }
  }

  function First(w: string): nat { if |w| < 4 then 0 else 571 }
  function Last(w: string): nat { if |w| < 4 then 570 else 2047 }

  /** The index of a word in the half of the dictionary its length selects. */
  ghost function IndexOf(d: seq<string>, w: string): Option<nat>
    requires Dictionary(d)
  {
    if i :| First(w) <= i <= Last(w) && d[i] == w then Some(i) else None
  }

  /** The dictionary holds no word twice, so the index of a word is where it stands. */
  lemma {:induction false} IndexOfEntry(d: seq<string>, v: nat)
    requires Dictionary(d) && v < 2048
    ensures IndexOf(d, d[v]) == Some(v)
  {
    var w := d[v];
    forall i | First(w) <= i <= Last(w) && d[i] == w ensures i == v {
      CompareIsEquality(d[i], d[v]);
      CompareIsEquality(d[v], d[i]);
    }
    assert First(w) <= v <= Last(w);
  }

  // ----- The text

  function Upper(c: char): char {
    if IsLower(c) then c - 'a' + 'A' else c
  }

  /** A letter in upper case; the digits that look like a letter become that letter. */
  function Fixed(c: char): char {
    var u := Upper(c);
    if u == '1' then 'L' else if u == '0' then 'O' else if u == '5' then 'S' else u
  }

  function FixedText(s: string): string { seq(|s|, i requires 0 <= i < |s| => Fixed(s[i])) }

  /** How many characters come before the first letter. */
  function Gap(s: string): (n: nat)
    ensures n <= |s|
    ensures n < |s| ==> IsAlpha(s[n])
    ensures forall i :: 0 <= i < n ==> !IsAlpha(s[i])
  {
    if s == [] || IsAlpha(s[0]) then 0 else 1 + Gap(s[1..])
  }

  /** How many characters are letters once fixed. */
  function Run(s: string): (n: nat)
    ensures n <= |s|
    ensures n < |s| ==> !IsAlpha(Fixed(s[n]))
    ensures forall i :: 0 <= i < n ==> IsAlpha(Fixed(s[i]))
  {
    if s == [] || !IsAlpha(Fixed(s[0])) then 0 else 1 + Run(s[1..])
  }

  /** Gap and Run are determined by what they promise. */
  lemma {:induction false} GapIs(s: string, n: nat)
    requires n <= |s| && (n < |s| ==> IsAlpha(s[n])) && forall i :: 0 <= i < n ==> !IsAlpha(s[i])
    ensures Gap(s) == n
  {
  }

  lemma {:induction false} RunIs(s: string, n: nat)
    requires n <= |s| && (n < |s| ==> !IsAlpha(Fixed(s[n]))) && forall i :: 0 <= i < n ==> IsAlpha(Fixed(s[i]))
    ensures Run(s) == n
  {
  }

  /** The next word of a text, what follows the separator behind it, and whether the text
      ended with the word. */
  datatype Token = Token(word: string, rest: string, ended: bool)

  function NextToken(s: string): Token {
    var t := s[Gap(s)..];
    var n := Run(t);
    Token(FixedText(t[..n]), if n < |t| then t[n + 1..] else [], n == |t|)
  }

  datatype Reading = Malformed | NoSuchWord | Words(indices: seq<nat>)

  function Prefixed(v: nat, r: Reading): (q: Reading)
    ensures q.Words? <==> r.Words?
    ensures r.Words? ==> |q.indices| == |r.indices| + 1
    ensures r.Words? && v < 2048 && (forall i :: 0 <= i < |r.indices| ==> r.indices[i] < 2048) ==>
              forall i :: 0 <= i < |q.indices| ==> q.indices[i] < 2048
  {
    if r.Words? then Words([v] + r.indices) else r
  }

  /** What reading k more words comes to. */
  ghost function Read(d: seq<string>, s: string, k: nat): (r: Reading)
    requires Dictionary(d)
    ensures r.Words? ==> |r.indices| == k && forall i :: 0 <= i < k ==> r.indices[i] < 2048
    decreases k
  {
    if k == 0 then Words([])
    else
      var token := NextToken(s);
      if (token.ended && k != 1) || |token.word| > 4 || |token.word| < 1 then Malformed
      else
        match IndexOf(d, token.word)
        case None => NoSuchWord
        case Some(v) => Prefixed(v, Read(d, token.rest, k - 1))
  }

  /** The first k words of a text, normalised. */
  function NormalWords(s: string, k: nat): (ws: seq<string>)
    ensures |ws| == k
    decreases k
  {
    if k == 0 then [] else [NextToken(s).word] + NormalWords(NextToken(s).rest, k - 1)
  }

  function Joined(ws: seq<string>): string {
    if ws == [] then [] else if |ws| == 1 then ws[0] else ws[0] + " " + Joined(ws[1..])
  }

  function WordsAt(d: seq<string>, w: seq<nat>): (ws: seq<string>)
    requires forall i :: 0 <= i < |w| ==> w[i] < |d|
    ensures |ws| == |w| && forall i :: 0 <= i < |w| ==> ws[i] == d[w[i]]
  {
    seq(|w|, i requires 0 <= i < |w| => d[w[i]])
  }

  // ----- Encoding and decoding, as functions

  /** The eight bytes followed by their two-bit checksum in the high bits of a ninth. */
  function Checked(c: seq<Byte>): (s: seq<Byte>)
    requires |c| == 8
    ensures |s| == 9 && s[8] % 64 == 0 && s[8] / 64 == DigitSum(c, 8) % 4
  {
    c + [DigitSum(c, 8) % 4 * 64]
  }

  function Encoding(d: seq<string>, c: seq<Byte>): string
    requires |d| == 2048 && |c| == 8
  {
    Joined(WordsAt(d, Unpacked(Checked(c))))
  }

  datatype Decoded = Decoded(status: int, bytes: seq<Byte>)

  const ZEROS: seq<Byte> := [0, 0, 0, 0, 0, 0, 0, 0]

  const COUNT: nat := 6

  /** At most 64 characters are looked at. */
  function Clipped(e: string): string {
    if |e| > 64 then e[..64] else e
  }

  ghost predicate ChecksumHolds(s: seq<Byte>)
    requires |s| == 9
  {
    DigitSum(s, 8) % 4 == s[8] / 64
  }

  ghost function Decoding(d: seq<string>, e: string): Decoded
    requires Dictionary(d)
  {
    match Read(d, Clipped(e), COUNT)
    case Malformed => Decoded(-1, ZEROS)
    case NoSuchWord => Decoded(0, ZEROS)
    case Words(w) => if ChecksumHolds(Bytes(w)) then Decoded(1, Bytes(w)[..8]) else Decoded(-2, ZEROS)
  }

  // ----- What decoding gives back

  lemma {:induction false} ChecksumReadsEightBytes(s: seq<Byte>, t: seq<Byte>, n: nat)
    requires n <= |s| && n <= |t| && s[..n] == t[..n]
    ensures DigitSum(s, n) == DigitSum(t, n)
  {
    if n > 0 {
      assert s[..n][n - 1] == s[n - 1] && t[..n][n - 1] == t[n - 1];
      assert s[..n - 1] == s[..n][..n - 1] && t[..n - 1] == t[..n][..n - 1];
      ChecksumReadsEightBytes(s, t, n - 1);
    }
  }

  lemma {:induction false} ReadNormalWords(d: seq<string>, s: string, k: nat)
    requires Dictionary(d) && Read(d, s, k).Words?
    ensures WordsAt(d, Read(d, s, k).indices) == NormalWords(s, k)
    decreases k
  {
    if k > 0 {
      var token := NextToken(s);
      ReadNormalWords(d, token.rest, k - 1);
      WordsAtFirst(d, IndexOf(d, token.word).value, Read(d, token.rest, k - 1).indices);
    }
  }

  lemma WordsAtFirst(d: seq<string>, v: nat, w: seq<nat>)
    requires v < |d| && forall i :: 0 <= i < |w| ==> w[i] < |d|
    ensures WordsAt(d, [v] + w) == [d[v]] + WordsAt(d, w)
  {
  }

  lemma {:induction false} CheckedAgain(s: seq<Byte>)
    requires |s| == 9 && s[8] % 64 == 0 && ChecksumHolds(s)
    ensures Checked(s[..8]) == s
  {
    ChecksumReadsEightBytes(s, s[..8], 8);
    assert s == s[..8] + [s[8]];
  }

  lemma {:induction false} EncodeWords(d: seq<string>, w: seq<nat>)
    requires |d| == 2048 && IsWords(w) && ChecksumHolds(Bytes(w))
    ensures Encoding(d, Bytes(w)[..8]) == Joined(WordsAt(d, w))
  {
    Quotient(Bytes(w)[8], 64, w[5] % 4, 0);
    CheckedAgain(Bytes(w));
    BytesThenUnpacked(w);
  }

  /** Whenever decoding succeeds, encoding the result spells out the words that were read. */
  lemma {:induction false} EncodeAfterDecode(d: seq<string>, e: string)
    requires Dictionary(d) && Decoding(d, e).status == 1
    ensures Encoding(d, Decoding(d, e).bytes) == Joined(NormalWords(Clipped(e), COUNT))
  {
    var t := Clipped(e);
    var w := Read(d, t, COUNT).indices;
    EncodeWords(d, w);
    ReadNormalWords(d, t, COUNT);
    assert Decoding(d, e).bytes == Bytes(w)[..8];
  }

  // ----- The code

  /** insert. */
  method InsertField(s: array<Byte>, x: nat, start: nat, length: nat)
    requires start / 8 + 2 < s.Length
    modifies s
    ensures s[..] == Inserted(old(s[..]), x, start, length)
  {
    var shift := (8 - (start + length) % 8) % 8;
    var y := x * Pow2(shift);
    var cl, cc, cr := y / 65536 % 256, y / 256 % 256, y % 256;
    var i := start / 8;
    if shift + length > 16 {
      s[i] := Or(s[i], cl);
      s[i + 1] := Or(s[i + 1], cc);
      s[i + 2] := Or(s[i + 2], cr);
    } else if shift + length > 8 {
      s[i] := Or(s[i], cc);
      s[i + 1] := Or(s[i + 1], cr);
    } else {
      s[i] := Or(s[i], cr);
    }
  }

  /** The sum of the first k two-bit fields. */
  function FieldSum(s: seq<Byte>, k: nat): nat
    requires |s| >= 2 && k <= 4 * (|s| - 2)
  {
    if k == 0 then 0 else FieldSum(s, k - 1) + Extract(s, 2 * (k - 1), 2)
  }

  lemma {:induction false} ByteFields(s: seq<Byte>, j: nat)
    requires j + 3 <= |s|
    ensures FieldSum(s, 4 * j + 4) == FieldSum(s, 4 * j) + Crumbs(s[j])
  {
    CrumbFields(s, j);
    assert FieldSum(s, 4 * j + 1) == FieldSum(s, 4 * j) + s[j] / 64;
    assert FieldSum(s, 4 * j + 2) == FieldSum(s, 4 * j + 1) + s[j] / 16 % 4;
    assert FieldSum(s, 4 * j + 3) == FieldSum(s, 4 * j + 2) + s[j] / 4 % 4;
    assert FieldSum(s, 4 * j + 4) == FieldSum(s, 4 * j + 3) + s[j] % 4;
  }

  /** Field by field or byte by byte, whatever the bytes behind are. */
  lemma {:induction false} FieldSumIsDigitSum(s: seq<Byte>, n: nat)
    requires n + 2 <= |s|
    ensures FieldSum(s, 4 * n) == DigitSum(s, n)
  {
    if n > 0 {
      FieldSumIsDigitSum(s, n - 1);
      ByteFields(s, n - 1);
    }
  }

  /** The checksum loops: the sum of the 32 two-bit fields of eight bytes, whatever follows them. */
  method SumFields(s: seq<Byte>) returns (p: nat)
    requires |s| >= 10
    ensures p == DigitSum(s, 8)
  {
    p := 0;
    var i := 0;
    ghost var k := 0;
    while i < 64
      invariant 0 <= i <= 64 && i == 2 * k && p == FieldSum(s, k)
    {
      p := p + Extract(s, i, 2);
      i := i + 2;
      k := k + 1;
    }
    FieldSumIsDigitSum(s, 8);
  }

  lemma {:induction false} JoinedSix(ws: seq<string>)
    requires |ws| == 6
    ensures Joined(ws) == ws[0] + " " + ws[1] + " " + ws[2] + " " + ws[3] + " " + ws[4] + " " + ws[5]
  {
    assert ws[1..][1..] == ws[2..] && ws[2..][1..] == ws[3..] && ws[3..][1..] == ws[4..] && ws[4..][1..] == ws[5..];
    assert Joined(ws[5..]) == ws[5];
    assert Joined(ws[4..]) == ws[4] + " " + Joined(ws[5..]);
    assert Joined(ws[3..]) == ws[3] + " " + Joined(ws[4..]);
    assert Joined(ws[2..]) == ws[2] + " " + Joined(ws[3..]);
    assert Joined(ws[1..]) == ws[1] + " " + Joined(ws[2..]);
  }

  /** The ninth byte as opiebtoe computes it. */
  lemma {:induction false} NinthByte(p: nat)
    ensures p * 64 % 256 == p % 4 * 64
  {
    Quotient(p * 64, 256, p / 4, p % 4 * 64);
  }

  /** opiebtoe.  The ninth byte and the two behind it are junk until they are written. */
  method Encode(d: seq<string>, c: seq<Byte>, junk: seq<Byte>) returns (engout: string)
    requires |d| == 2048 && |c| == 8 && |junk| == 3
    ensures engout == Encoding(d, c)
  {
    var cp := c + junk;
    var p := SumFields(cp);
    ChecksumReadsEightBytes(cp, c, 8);
    NinthByte(p);
    cp := cp[8 := p * 64 % 256];
    var w := Fields(cp);
    FieldsAreUnpacked(cp);
    assert w == Unpacked(Checked(c));
    engout := d[w[0]];
    engout := engout + " ";
    engout := engout + d[w[1]];
    engout := engout + " ";
    engout := engout + d[w[2]];
    engout := engout + " ";
    engout := engout + d[w[3]];
    engout := engout + " ";
    engout := engout + d[w[4]];
    engout := engout + " ";
    engout := engout + d[w[5]];
    JoinedSix(WordsAt(d, w));
  }

  /** A C string of length n in an array: no NUL before the one that ends it. */
  ghost predicate Terminated(input: array<char>, c: nat, n: nat)
    reads input
  {
    c <= n && input.Length == n + 1 && input[n] == '\0' && forall i :: c <= i < n ==> input[i] != '\0'
  }

  /** Line 2144: skip to the next letter. */
  method SkipGap(input: array<char>, start: nat, n: nat) returns (c: nat)
    requires Terminated(input, start, n)
    ensures start <= c <= n && c == start + Gap(input[start..n])
  {
    c := start;
    while input[c] != '\0' && !IsAlpha(input[c])
      invariant start <= c <= n
      invariant forall i :: start <= i < c ==> !IsAlpha(input[i])
      decreases n - c
    {
      c := c + 1;
    }
    GapIs(input[start..n], c - start);
  }

  /** Lines 2146-2158: put the word in upper case in place, mending digits, up to its end. */
  method FixRun(input: array<char>, start: nat, n: nat) returns (c: nat)
    requires Terminated(input, start, n)
    modifies input
    ensures start <= c <= n && c == start + Run(old(input[start..n]))
    ensures input[start..c] == FixedText(old(input[start..n])[..c - start])
    ensures Terminated(input, c, n)
    ensures c < n ==> input[c + 1..n] == old(input[start..n])[c - start + 1..]
  {
    c := start;
    while input[c] != '\0'
      invariant start <= c <= n
      invariant forall i :: start <= i < c ==> input[i] == Fixed(old(input[i])) && IsAlpha(input[i])
      invariant forall i :: c <= i <= n ==> input[i] == old(input[i])
      decreases n - c
    {
      if IsLower(input[c]) {
        input[c] := Upper(input[c]);
      }
      if input[c] == '1' {
        input[c] := 'L';
      }
      if input[c] == '0' {
        input[c] := 'O';
      }
      if input[c] == '5' {
        input[c] := 'S';
      }
      if !IsAlpha(input[c]) {
        break;
      }
      c := c + 1;
    }
    RunIs(old(input[start..n]), c - start);
    assert old(input[start..n])[..c - start] == old(input[start..c]);
    if c < n {
      assert old(input[start..n])[c - start + 1..] == old(input[c + 1..n]) == input[c + 1..n];
    }
  }

  lemma TokenFrom(s: string, t: string)
    requires t == s[Gap(s)..]
    ensures NextToken(s).word == FixedText(t[..Run(t)]) && NextToken(s).ended == (Run(t) == |t|)
    ensures Run(t) < |t| ==> NextToken(s).rest == t[Run(t) + 1..]
  {
  }

  /** Lines 2144-2158: the next word, in place from word up to c. */
  method TakeToken(input: array<char>, start: nat, n: nat) returns (word: nat, c: nat)
    requires Terminated(input, start, n)
    modifies input
    ensures start <= word <= c <= n && Terminated(input, c, n)
    ensures var token := NextToken(old(input[start..n]));
            && input[word..c] == token.word
            && (token.ended <==> c == n)
            && (c < n ==> input[c + 1..n] == token.rest)
  {
    ghost var s := input[start..n];
    word := SkipGap(input, start, n);
    ghost var t := input[word..n];
    assert t == s[word - start..];
    TokenFrom(s, t);
    c := FixRun(input, word, n);
  }

  /** Lines 2166-2178: search the half of the dictionary that the word's length selects. */
  method Lookup(d: seq<string>, w: string) returns (v: int)
    requires Dictionary(d) && 1 <= |w| <= 4
    ensures if v < 0 then IndexOf(d, w) == None else v < 2048 && IndexOf(d, w) == Some(v)
  {
    var low, high;
    if |w| < 4 {
      low, high := 0, 570;
    } else {
      low, high := 571, 2047;
    }
    v := WordSearch(d, w, low, high);
    if v >= 0 {
      IndexOfEntry(d, v);
    }
  }

  /** Lines 2161-2162: end the word where it ends, and step over it. */
  method EndWord(input: array<char>, c: nat, n: nat)
    requires Terminated(input, c, n)
    modifies input
    ensures c < n ==> Terminated(input, c + 1, n) && input[c + 1..n] == old(input[c + 1..n])
  {
    input[c] := '\0';
  }

  /** Lines 2144-2179: read one word and look it up.  The status is -1 or 0 where the source
      jumps to its end with that value, and 1 where it goes on. */
  method ReadWord(d: seq<string>, input: array<char>, start: nat, n: nat, lastWord: bool)
    returns (status: int, v: nat, c: nat)
    requires Dictionary(d) && Terminated(input, start, n)
    modifies input
    ensures var token := NextToken(old(input[start..n]));
            if (token.ended && !lastWord) || |token.word| > 4 || |token.word| < 1 then status == -1
            else if IndexOf(d, token.word) == None then status == 0
            else
              && status == 1 && IndexOf(d, token.word) == Some(v) && v < 2048
              && (!token.ended ==> Terminated(input, c, n) && input[c..n] == token.rest)
  {
    v := 0;
    var word;
    word, c := TakeToken(input, start, n);
    if input[c] == '\0' && !lastWord {
      return -1, v, c;
    }
    var w := input[word..c];
    EndWord(input, c, n);
    c := c + 1;
    if |w| > 4 || |w| < 1 {
      return -1, v, c;
    }
    var found := Lookup(d, w);
    if found < 0 {
      return 0, v, c;
    }
    return 1, found, c;
  }

  lemma {:induction false} PaddedIsSmall(ws: seq<nat>)
    requires |ws| <= 6 && IsWords(Padded(ws))
    ensures Small(ws)
  {
    forall k | 0 <= k < |ws| ensures ws[k] < 2048 {
      assert Padded(ws)[k] == ws[k];
    }
  }

  /** One round of the loop of opieetob, after the words ws. */
  method ReadAndInsert(d: seq<string>, input: array<char>, start: nat, n: nat, i: nat, b: array<Byte>,
                       ghost ws: seq<nat>)
    returns (status: int, v: nat, c: nat)
    requires Dictionary(d) && Terminated(input, start, n)
    requires i < 6 && |ws| == i && IsWords(Padded(ws)) && b.Length == 9 && b[..] == Bytes(Padded(ws))
    modifies input, b
    ensures var token := NextToken(old(input[start..n]));
            && status in {-1, 0, 1}
            && Continued(ws, Read(d, old(input[start..n]), 6 - i)) ==
               (if status == 1 then Continued(ws + [v], Read(d, token.rest, 5 - i)) else Outcome(status, []))
            && (status == 1 ==>
                  && v < 2048 && IsWords(Padded(ws + [v])) && b[..] == Bytes(Padded(ws + [v]))
                  && (i < 5 ==> Terminated(input, c, n) && input[c..n] == token.rest))
  {
    status, v, c := ReadWord(d, input, start, n, i == 5);
    if status == 1 {
      ContinuedStep(ws, v, Read(d, NextToken(old(input[start..n])).rest, 5 - i));
      PaddedIsSmall(ws);
      InsertNext(ws, v);
      InsertField(b, v, 11 * i, 11);
    }
  }

  /** The words read so far in front of the outcome for the others. */
  ghost function Continued(ws: seq<nat>, r: Reading): Reading {
    if r.Words? then Words(ws + r.indices) else r
  }

  lemma {:induction false} ContinuedStep(ws: seq<nat>, v: nat, r: Reading)
    ensures Continued(ws, Prefixed(v, r)) == Continued(ws + [v], r)
  {
    if r.Words? {
      assert ws + ([v] + r.indices) == ws + [v] + r.indices;
    }
  }

  /** The outcome that a status stands for. */
  ghost function Outcome(status: int, ws: seq<nat>): Reading {
    if status == -1 then Malformed else if status == 0 then NoSuchWord else Words(ws)
  }

  /** The loop of opieetob, lines 2143-2180: read six words into nine bytes. */
  method ReadAll(d: seq<string>, input: array<char>, n: nat, b: array<Byte>) returns (status: int, ghost ws: seq<nat>)
    requires Dictionary(d) && Terminated(input, 0, n) && b.Length == 9 && forall i :: 0 <= i < 9 ==> b[i] == 0
    modifies input, b
    ensures Read(d, old(input[0..n]), COUNT) == Outcome(status, ws) && status in {-1, 0, 1}
    ensures status == 1 ==> IsWords(ws) && b[..] == Bytes(ws)
  {
    ghost var text := input[0..n];
    var i: nat, c: nat := 0, 0;
    ghost var rest, left := text, COUNT;
    ws := [];
    NoWords(ws);
    while i < 6
      invariant |ws| == i && i + left == COUNT
      invariant i < 6 ==> Terminated(input, c, n) && input[c..n] == rest
      invariant IsWords(Padded(ws)) && b[..] == Bytes(Padded(ws))
      invariant Read(d, text, COUNT) == Continued(ws, Read(d, rest, left))
    {
      ghost var next := NextToken(rest).rest;
      var v: nat;
      status, v, c := ReadAndInsert(d, input, c, n, i, b, ws);
      if status != 1 {
        return;
      }
      left := left - 1;
      ws, rest := ws + [v], next;
      i := i + 1;
    }
    status := 1;
    assert Padded(ws) == ws;
  }

  /** opieetob. */
  method Decode(d: seq<string>, e: string, junk: seq<Byte>) returns (status: int, out: seq<Byte>)
    requires Dictionary(d) && '\0' !in e && |junk| == 2
    ensures Decoded(status, out) == Decoding(d, e)
  {
    out := ZEROS;
    var n := if |e| > 64 then 64 else |e|;
    var input := new char[n + 1](i => if 0 <= i < n && i < |e| then e[i] else '\0');
    var b := new Byte[9](_ => 0);
    assert input[0..n] == Clipped(e);
    ghost var ws;
    status, ws := ReadAll(d, input, n, b);
    if status != 1 {
      return;
    }
    var right := Verify(b[..], junk);
    if !right {
      status := -2;
      return;
    }
    out := b[..8];
  }

  /** Lines 2182-2189: the checksum. The bytes behind the buffer do not matter. */
  method Verify(b: seq<Byte>, junk: seq<Byte>) returns (right: bool)
    requires |b| == 9 && |junk| == 2
    ensures right <==> ChecksumHolds(b)
  {
    var s := b + junk;
    var p := SumFields(s);
    ChecksumReadsEightBytes(s, b, 8);
    TopCrumb(s, 8);
    return p % 4 == Extract(s, 64, 2);
  }
}
