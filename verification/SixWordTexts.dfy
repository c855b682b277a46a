/** util/btoe.c: what texts the six words are written as and read from, in characters. */
module SixWordTexts {
  import opened Basics
  import opened WordBits
  import opened SixWords

  // ----- The number behind the words

  /** The sum of the base-4 digits of a number. */
  function Base4Sum(n: nat): nat {
    if n == 0 then 0 else Base4Sum(n / 4) + n % 4
  }

  lemma {:induction false} Base4Step(n: nat, q: nat, r: nat)
    requires n == 4 * q + r && r < 4
    ensures Base4Sum(n) == Base4Sum(q) + r
  {
    Quotient(n, 4, q, r);
  }

  lemma Base4Digits(x: nat, p: nat, q: nat, r: nat, t: nat, n: nat)
    requires p < 4 && q < 4 && r < 4 && t < 4 && n == 256 * x + 64 * p + 16 * q + 4 * r + t
    ensures Base4Sum(n) == Base4Sum(x) + p + q + r + t
  {
    var a := 4 * x + p;
    var b := 4 * a + q;
    var c := 4 * b + r;
    Base4Step(n, c, t);
    Base4Step(c, b, r);
    Base4Step(b, a, q);
    Base4Step(a, x, p);
  }

  lemma ByteDigits(b: Byte, x: nat, n: nat)
    requires n == 256 * x + b
    ensures n == 256 * x + 64 * (b / 64) + 16 * (b / 16 % 4) + 4 * (b / 4 % 4) + b % 4 && b / 64 < 4
  {
    assert b / 16 == b / 4 / 4 && b / 64 == b / 16 / 4;
  }

  lemma Base4Byte(x: nat, b: Byte, n: nat)
    requires n == 256 * x + b
    ensures Base4Sum(n) == Base4Sum(x) + Crumbs(b)
  {
    ByteDigits(b, x, n);
    Base4Digits(x, b / 64, b / 16 % 4, b / 4 % 4, b % 4, n);
  }

  /** The checksum is the digit sum of the bytes as one number in base 4. */
  lemma {:induction false} ChecksumIsBase4Sum(s: seq<Byte>, n: nat)
    requires n <= |s|
    ensures DigitSum(s, n) == Base4Sum(Big(s[..n]))
  {
    if n > 0 {
      ChecksumIsBase4Sum(s, n - 1);
      BigStep(s, n - 1);
      Base4Byte(Big(s[..n - 1]), s[n - 1], Big(s[..n]));
    }
  }

  /** The six words are the base-2048 digits of eight bytes followed by two bits of checksum. */
  ghost predicate IsNumbered(w: seq<nat>, c: seq<Byte>) {
    IsWords(w) && Base2048(w) == 4 * Big(c) + Base4Sum(Big(c)) % 4
  }

  lemma CheckedBig(c: seq<Byte>)
    requires |c| == 8
    ensures Big(Checked(c)) == 64 * (4 * Big(c) + Base4Sum(Big(c)) % 4)
  {
    var s := Checked(c);
    assert s[..8] == c && s[..9] == s && c[..8] == c;
    BigStep(s, 8);
    ChecksumIsBase4Sum(c, 8);
  }

  lemma CheckedIsNumbered(c: seq<Byte>)
    requires |c| == 8
    ensures IsNumbered(Unpacked(Checked(c)), c)
  {
    UnpackedThenBytes(Checked(c));
    LayoutIsPositional(Unpacked(Checked(c)));
    CheckedBig(c);
  }

  lemma {:induction false} Base2048Injective(v: seq<nat>, w: seq<nat>)
    requires |v| == |w| && Base2048(v) == Base2048(w)
    requires (forall i :: 0 <= i < |v| ==> v[i] < 2048) && forall i :: 0 <= i < |w| ==> w[i] < 2048
    ensures v == w
  {
    if v != [] {
      var k := |v| - 1;
      Quotient(Base2048(v), 2048, Base2048(v[..k]), v[k]);
      Quotient(Base2048(w), 2048, Base2048(w[..k]), w[k]);
      Base2048Injective(v[..k], w[..k]);
      assert v == v[..k] + [v[k]] && w == w[..k] + [w[k]];
    }
  }

  lemma NumberedIs(w: seq<nat>, c: seq<Byte>)
    requires |c| == 8
    ensures IsNumbered(w, c) <==> w == Unpacked(Checked(c))
  {
    CheckedIsNumbered(c);
    if IsNumbered(w, c) {
      Base2048Injective(w, Unpacked(Checked(c)));
    }
  }

  /** What is written: the words of the number, with spaces between them. */
  lemma EncodingIs(d: seq<string>, c: seq<Byte>, w: seq<nat>)
    requires |d| == 2048 && |c| == 8 && IsNumbered(w, c)
    ensures Encoding(d, c) == d[w[0]] + " " + (d[w[1]] + " " + (d[w[2]] + " " +
                              (d[w[3]] + " " + (d[w[4]] + " " + d[w[5]]))))
  {
    NumberedIs(w, c);
    var ws := WordsAt(d, w);
    JoinedStep(ws, 0);
    JoinedStep(ws, 1);
    JoinedStep(ws, 2);
    JoinedStep(ws, 3);
    JoinedStep(ws, 4);
    assert ws[0..] == ws;
  }

  lemma JoinedStep(ws: seq<string>, i: nat)
    requires i + 1 < |ws|
    ensures Joined(ws[i..]) == ws[i] + " " + Joined(ws[i + 1..])
    ensures i + 2 == |ws| ==> Joined(ws[i + 1..]) == ws[i + 1]
  {
    assert ws[i..][1..] == ws[i + 1..];
  }

  // ----- The characters of a word

  predicate Letter(c: char) {
    65 <= c as int <= 90 || 97 <= c as int <= 122
  }

  /** What a word goes on with: a letter, or a digit that looks like one. */
  predicate Wordy(c: char) {
    Letter(c) || c == '1' || c == '0' || c == '5'
  }

  /** t may be typed for the capital letter c. */
  predicate Types(c: char, t: char) {
    || t == c || t as int == c as int + 32
    || (c == 'L' && t == '1') || (c == 'O' && t == '0') || (c == 'S' && t == '5')
  }

  predicate Capitals(w: string) {
    forall i :: 0 <= i < |w| ==> 65 <= w[i] as int <= 90
  }

  /** The text begins with w, as typed, and then ends or goes on with something that no word goes
      on with. */
  predicate Typed(t: string, w: string) {
    if w == [] then t == [] || !Wordy(t[0]) else t != [] && Types(w[0], t[0]) && Typed(t[1..], w[1..])
  }

  /** Behind g characters that are no letters comes w, typed with a letter first. */
  predicate WordAt(e: string, g: nat, w: string)
    decreases g
  {
    if g > 0 then e != [] && !Letter(e[0]) && WordAt(e[1..], g - 1, w)
    else w != [] && Typed(e, w) && Letter(e[0])
  }

  /** The text spells these words, with so many characters in front of each, and at least one more
      behind each but the last, or behind that too. */
  predicate SpellsAt(e: string, ws: seq<string>, gs: seq<nat>, more: bool)
    decreases |ws|
  {
    && ws != [] && |gs| == |ws| && WordAt(e, gs[0], ws[0])
    && (more || |ws| > 1 ==> gs[0] + |ws[0]| < |e|)
    && (|ws| > 1 ==> SpellsAt(e[gs[0] + |ws[0]| + 1..], ws[1..], gs[1..], more))
  }

  ghost predicate Spells(e: string, ws: seq<string>) {
    exists gs :: SpellsAt(e, ws, gs, false)
  }

  // ----- Spelling and reading

  lemma FixedAlpha(t: char)
    ensures IsAlpha(Fixed(t)) <==> Wordy(t)
    ensures IsAlpha(t) <==> Letter(t)
    ensures IsAlpha(Fixed(t)) ==> 65 <= Fixed(t) as int <= 90 && Types(Fixed(t), t)
    ensures forall c :: 65 <= c as int <= 90 && Types(c, t) ==> Fixed(t) == c
  {
  }

  lemma {:induction false} TypedIsRun(t: string, w: string)
    requires Capitals(w)
    ensures Typed(t, w) <==> |w| == Run(t) && FixedText(t[..Run(t)]) == w
    decreases |t|
  {
    if t != [] {
      FixedAlpha(t[0]);
      if w != [] {
        TypedIsRun(t[1..], w[1..]);
        if Run(t) > 0 {
          FixedTextStep(t, Run(t), w);
        }
      }
    }
  }

  lemma FixedTextStep(t: string, n: nat, w: string)
    requires 0 < n <= |t| && w != []
    ensures FixedText(t[..n]) == w <==> Fixed(t[0]) == w[0] && FixedText(t[1..][..n - 1]) == w[1..]
  {
    var u := FixedText(t[..n]);
    assert u == [Fixed(t[0])] + FixedText(t[1..][..n - 1]);
    assert w == [w[0]] + w[1..];
    assert u[0] == Fixed(t[0]) && u[1..] == FixedText(t[1..][..n - 1]);
  }

  /** A word that stands in the text is the next one read, and the other way round. */
  lemma {:induction false} WordIsToken(e: string, g: nat, w: string)
    requires Capitals(w) && w != []
    ensures WordAt(e, g, w) <==> g == Gap(e) && NextToken(e).word == w
    decreases |e|
  {
    if e != [] {
      FixedAlpha(e[0]);
      if Letter(e[0]) {
        assert e[0..] == e;
        TypedIsRun(e, w);
      } else {
        SkipOne(e);
        if g > 0 {
          WordIsToken(e[1..], g - 1, w);
        }
      }
    }
  }

  lemma TokenParts(e: string)
    ensures var token := NextToken(e); var n := Gap(e) + |token.word|;
      n <= |e| && (token.ended <==> n == |e|) && (n < |e| ==> token.rest == e[n + 1..])
  {
  }

  lemma SkipOne(e: string)
    requires e != [] && !IsAlpha(e[0])
    ensures NextToken(e) == NextToken(e[1..]) && Gap(e) == Gap(e[1..]) + 1
  {
    assert e[1..][Gap(e[1..])..] == e[Gap(e)..];
  }

  lemma ReadHead(d: seq<string>, e: string, w: seq<nat>)
    requires Dictionary(d) && w != [] && forall i :: 0 <= i < |w| ==> w[i] < 2048
    ensures var token := NextToken(e);
      Read(d, e, |w|) == Words(w) <==>
      token.word == d[w[0]] && (|w| > 1 ==> !token.ended && Read(d, token.rest, |w| - 1) == Words(w[1..]))
  {
    IndexOfEntry(d, w[0]);
    assert w == [w[0]] + w[1..];
    assert |w| == 1 ==> w[1..] == [];
  }

  lemma IndexOfMeans(d: seq<string>, u: string)
    requires Dictionary(d) && 1 <= |u| <= 4
    ensures IndexOf(d, u) == None <==> u !in d
  {
    if u in d {
      var i :| 0 <= i < |d| && d[i] == u;
      IndexOfEntry(d, i);
    }
  }

  lemma SpellsAtStep(e: string, ws: seq<string>, gs: seq<nat>, more: bool)
    requires ws != [] && |gs| == |ws| && Capitals(ws[0]) && ws[0] != []
    ensures var token := NextToken(e);
      SpellsAt(e, ws, gs, more) <==>
      && gs[0] == Gap(e) && token.word == ws[0] && (more || |ws| > 1 ==> !token.ended)
      && (|ws| > 1 ==> SpellsAt(token.rest, ws[1..], gs[1..], more))
  {
    WordIsToken(e, gs[0], ws[0]);
    TokenParts(e);
  }

  /** What is in front of each of the next k words. */
  function Gaps(e: string, k: nat): (gs: seq<nat>)
    ensures |gs| == k
    decreases k
  {
    if k == 0 then [] else [Gap(e)] + Gaps(NextToken(e).rest, k - 1)
  }

  lemma GapsStep(e: string, k: nat)
    requires k > 0
    ensures Gaps(e, k)[0] == Gap(e) && Gaps(e, k)[1..] == Gaps(NextToken(e).rest, k - 1)
  {
  }

  lemma {:induction false} SpellsAtReads(d: seq<string>, e: string, w: seq<nat>, gs: seq<nat>)
    requires Dictionary(d) && w != [] && forall i :: 0 <= i < |w| ==> w[i] < 2048
    requires SpellsAt(e, WordsAt(d, w), gs, false)
    ensures Read(d, e, |w|) == Words(w)
    decreases |w|
  {
    var ws := WordsAt(d, w);
    SpellsAtStep(e, ws, gs, false);
    ReadHead(d, e, w);
    if |w| > 1 {
      assert ws[1..] == WordsAt(d, w[1..]);
      SpellsAtReads(d, NextToken(e).rest, w[1..], gs[1..]);
    }
  }

  lemma {:induction false} ReadSpellsAt(d: seq<string>, e: string, w: seq<nat>)
    requires Dictionary(d) && w != [] && forall i :: 0 <= i < |w| ==> w[i] < 2048
    requires Read(d, e, |w|) == Words(w)
    ensures SpellsAt(e, WordsAt(d, w), Gaps(e, |w|), false)
    decreases |w|
  {
    ReadHead(d, e, w);
    GapsStep(e, |w|);
    if |w| > 1 {
      WordsAtRest(d, w);
      ReadSpellsAt(d, NextToken(e).rest, w[1..]);
    }
    SpellsAtStep(e, WordsAt(d, w), Gaps(e, |w|), false);
  }

  lemma WordsAtRest(d: seq<string>, w: seq<nat>)
    requires w != [] && forall i :: 0 <= i < |w| ==> w[i] < |d|
    ensures WordsAt(d, w)[1..] == WordsAt(d, w[1..])
  {
  }

  lemma ReadSpells(d: seq<string>, e: string, w: seq<nat>)
    requires Dictionary(d) && w != [] && forall i :: 0 <= i < |w| ==> w[i] < 2048
    ensures Read(d, e, |w|) == Words(w) <==> Spells(e, WordsAt(d, w))
  {
    if Read(d, e, |w|) == Words(w) {
      ReadSpellsAt(d, e, w);
    }
    if gs :| SpellsAt(e, WordsAt(d, w), gs, false) {
      SpellsAtReads(d, e, w, gs);
    }
  }

  /** Among the next k words one of one to four letters is not in the dictionary, and the ones before
      it are. */
  predicate Misses(d: seq<string>, e: string, k: nat)
    decreases k
  {
    var token := NextToken(e);
    && k > 0 && 1 <= |token.word| <= 4 && (k > 1 ==> !token.ended)
    && (token.word in d ==> k > 1 && Misses(d, token.rest, k - 1))
  }

  lemma {:induction false} ReadMisses(d: seq<string>, e: string, k: nat)
    requires Dictionary(d)
    ensures Read(d, e, k) == NoSuchWord <==> Misses(d, e, k)
    decreases k
  {
    if k > 0 {
      var token := NextToken(e);
      ReadMisses(d, token.rest, k - 1);
      if 1 <= |token.word| <= 4 {
        IndexOfMeans(d, token.word);
      }
    }
  }

  // ----- What decoding comes to, on every text

  /** The six words of the number of these bytes and their checksum stand in the text's first 64
      characters. */
  ghost predicate SpellsBytes(d: seq<string>, e: string, c: seq<Byte>)
    requires |d| == 2048
  {
    exists w :: IsNumbered(w, c) && Spells(if |e| > 64 then e[..64] else e, WordsAt(d, w))
  }

  /** Decoding gives these bytes exactly for the texts that spell them. */
  lemma {:induction false} DecodesExactly(d: seq<string>, e: string, c: seq<Byte>)
    requires Dictionary(d) && |c| == 8
    ensures Decoding(d, e) == Decoded(1, c) <==> SpellsBytes(d, e, c)
  {
    var w := Unpacked(Checked(c));
    NumberedIs(w, c);
    ReadSpells(d, Clipped(e), w);
    if Read(d, Clipped(e), 6) == Words(w) {
      ReadBytes(d, e, c);
    }
    if Decoding(d, e) == Decoded(1, c) {
      BytesRead(d, e, c);
    }
    if SpellsBytes(d, e, c) {
      SpelledWords(d, e, c);
    }
  }

  lemma ReadBytes(d: seq<string>, e: string, c: seq<Byte>)
    requires Dictionary(d) && |c| == 8 && Read(d, Clipped(e), 6) == Words(Unpacked(Checked(c)))
    ensures Decoding(d, e) == Decoded(1, c)
  {
    var s := Checked(c);
    UnpackedThenBytes(s);
    assert s[..8] == c;
    ChecksumReadsEightBytes(s, c, 8);
  }

  lemma BytesRead(d: seq<string>, e: string, c: seq<Byte>)
    requires Dictionary(d) && |c| == 8 && Decoding(d, e) == Decoded(1, c)
    ensures Read(d, Clipped(e), 6) == Words(Unpacked(Checked(c)))
  {
    var w := Read(d, Clipped(e), 6).indices;
    Quotient(Bytes(w)[8], 64, w[5] % 4, 0);
    CheckedAgain(Bytes(w));
    BytesThenUnpacked(w);
  }

  /** The other answers: -2 for six words whose checksum is wrong, 0 for a word that is none, and -1
      for any other text. All of them leave eight zero bytes. */
  lemma {:induction false} FailsExactly(d: seq<string>, e: string)
    requires Dictionary(d)
    ensures var t := if |e| > 64 then e[..64] else e; var status := Decoding(d, e).status;
      && status in {1, 0, -1, -2}
      && (status == 1 || status == -2 <==> exists w :: IsWords(w) && Spells(t, WordsAt(d, w)))
      && (status == 0 <==> Misses(d, t, 6))
      && (status != 1 ==> Decoding(d, e).bytes == [0, 0, 0, 0, 0, 0, 0, 0])
  {
    var t := Clipped(e);
    ReadMisses(d, t, 6);
    var r := Read(d, t, 6);
    if r.Words? {
      ReadSpells(d, t, r.indices);
      assert IsWords(r.indices) && Spells(t, WordsAt(d, r.indices));
    }
    if w :| IsWords(w) && Spells(t, WordsAt(d, w)) {
      ReadSpells(d, t, w);
    }
  }

  // ----- Typing what was written

  /** e is typed for t, character by character: a space for a space, and for a letter anything that
      may be typed for it. */
  predicate TypedFor(e: string, t: string) {
    if t == [] then e == []
    else e != [] && (if t[0] == ' ' then e[0] == ' ' else Types(t[0], e[0])) && TypedFor(e[1..], t[1..])
  }

  /** Every word, what follows a space, begins with a letter; so does the text if it starts one. */
  predicate BeginsWithLetters(e: string, start: bool) {
    e == [] || ((start ==> Letter(e[0])) && BeginsWithLetters(e[1..], e[0] == ' '))
  }

  lemma {:induction false} TypedForLength(e: string, t: string)
    requires TypedFor(e, t)
    ensures |e| == |t|
  {
    if t != [] {
      TypedForLength(e[1..], t[1..]);
    }
  }

  lemma {:induction false} TypedForOneWord(e: string, w: string)
    requires Capitals(w) && TypedFor(e, w)
    ensures Typed(e, w) && BeginsWithLetters(e, false)
  {
    if w != [] {
      TypedForOneWord(e[1..], w[1..]);
    }
  }

  lemma {:induction false} TypedForFront(e: string, w: string, more: string)
    requires Capitals(w) && TypedFor(e, w + " " + more)
    ensures |w| < |e| && Typed(e, w) && TypedFor(e[|w| + 1..], more)
    ensures BeginsWithLetters(e, false) <==> BeginsWithLetters(e[|w| + 1..], true)
  {
    var t := w + " " + more;
    if w == [] {
      assert t[1..] == more;
    } else {
      assert t[1..] == w[1..] + " " + more;
      TypedForFront(e[1..], w[1..], more);
      assert e[1..][|w|..] == e[|w| + 1..];
    }
  }

  predicate Proper(ws: seq<string>) {
    forall i :: 0 <= i < |ws| ==> ws[i] != [] && |ws[i]| <= 4 && Capitals(ws[i])
  }

  lemma {:induction false} JoinedLength(ws: seq<string>)
    requires Proper(ws)
    ensures |Joined(ws)| <= 5 * |ws|
    decreases |ws|
  {
    if |ws| > 1 {
      JoinedLength(ws[1..]);
    }
  }

  lemma {:induction false} WordAtIsLong(e: string, g: nat, w: string)
    requires WordAt(e, g, w)
    ensures |e| >= g + |w|
    decreases g
  {
    if g > 0 {
      WordAtIsLong(e[1..], g - 1, w);
    } else {
      TypedIsLong(e, w);
    }
  }

  lemma {:induction false} TypedIsLong(t: string, w: string)
    requires Typed(t, w)
    ensures |t| >= |w|
  {
    if w != [] {
      TypedIsLong(t[1..], w[1..]);
    }
  }

  /** A text that spells these words is no shorter than they are with single spaces, and with
      anything in front of the first one it is longer. */
  lemma {:induction false} SpellingIsLong(e: string, ws: seq<string>, gs: seq<nat>)
    requires SpellsAt(e, ws, gs, false)
    ensures |e| >= gs[0] + |Joined(ws)|
    decreases |ws|
  {
    WordAtIsLong(e, gs[0], ws[0]);
    if |ws| > 1 {
      SpellingIsLong(e[gs[0] + |ws[0]| + 1..], ws[1..], gs[1..]);
    }
  }

  lemma TypedSpellsStep(e: string, ws: seq<string>)
    requires Proper(ws) && |ws| > 1 && TypedFor(e, Joined(ws)) && |ws[0]| < |e|
    ensures Spells(e, ws) <==> WordAt(e, 0, ws[0]) && Spells(e[|ws[0]| + 1..], ws[1..])
  {
    TypedForLength(e, Joined(ws));
    if gs :| SpellsAt(e, ws, gs, false) {
      SpellingIsLong(e, ws, gs);
      assert SpellsAt(e[|ws[0]| + 1..], ws[1..], gs[1..], false);
    }
    if Spells(e[|ws[0]| + 1..], ws[1..]) {
      var gs :| SpellsAt(e[|ws[0]| + 1..], ws[1..], gs, false);
      assert ([0] + gs)[1..] == gs;
      assert WordAt(e, 0, ws[0]) ==> SpellsAt(e, ws, [0] + gs, false);
    }
  }

  lemma {:induction false} TypedSpells(e: string, ws: seq<string>)
    requires Proper(ws) && ws != [] && TypedFor(e, Joined(ws))
    ensures Spells(e, ws) <==> BeginsWithLetters(e, true)
    decreases |ws|
  {
    var w := ws[0];
    if |ws| == 1 {
      TypedForOneWord(e, w);
      TypedForLength(e, w);
      if gs :| SpellsAt(e, ws, gs, false) {
        SpellingIsLong(e, ws, gs);
      }
      TypedForOneWord(e[1..], w[1..]);
      assert WordAt(e, 0, w) ==> SpellsAt(e, ws, [0], false);
    } else {
      var more := Joined(ws[1..]);
      TypedForFront(e, w, more);
      TypedSpellsStep(e, ws);
      TypedSpells(e[|w| + 1..], ws[1..]);
      assert (w + " " + more)[1..] == w[1..] + " " + more;
      TypedForFront(e[1..], w[1..], more);
      assert e[1..][|w|..] == e[|w| + 1..];
    }
  }

  /** Decoding an encoding, typed in any letter case and with 1, 0 and 5 for any L, O and S, gives the
      eight bytes back exactly when no word begins with such a digit. */
  lemma DecodeAfterEncode(d: seq<string>, c: seq<Byte>, e: string)
    requires Dictionary(d) && |c| == 8 && TypedFor(e, Encoding(d, c))
    ensures Decoding(d, e) == Decoded(1, c) <==> BeginsWithLetters(e, true)
  {
    var w := Unpacked(Checked(c));
    var ws := WordsAt(d, w);
    JoinedLength(ws);
    TypedForLength(e, Joined(ws));
    TypedSpells(e, ws);
    DecodesExactly(d, e, c);
    NumberedIs(w, c);
    if SpellsBytes(d, e, c) {
      SpelledWords(d, e, c);
    }
  }

  lemma SpelledWords(d: seq<string>, e: string, c: seq<Byte>)
    requires |d| == 2048 && |c| == 8 && SpellsBytes(d, e, c)
    ensures Spells(if |e| > 64 then e[..64] else e, WordsAt(d, Unpacked(Checked(c))))
  {
    var v :| IsNumbered(v, c) && Spells(if |e| > 64 then e[..64] else e, WordsAt(d, v));
    NumberedIs(v, c);
  }

  lemma {:induction false} TypedForItself(t: string)
    requires forall i :: 0 <= i < |t| ==> t[i] == ' ' || 65 <= t[i] as int <= 90
    ensures TypedFor(t, t)
  {
    if t != [] {
      TypedForItself(t[1..]);
    }
  }

  lemma {:induction false} JoinedCharacters(ws: seq<string>)
    requires Proper(ws)
    ensures var t := Joined(ws); forall i :: 0 <= i < |t| ==> t[i] == ' ' || 65 <= t[i] as int <= 90
    ensures ws != [] ==> Joined(ws) != [] && Joined(ws)[0] == ws[0][0]
    decreases |ws|
  {
    if |ws| > 1 {
      JoinedCharacters(ws[1..]);
    }
  }

  /** A digit typed for the very first letter is skipped, and what follows is not the bytes. */
  lemma DigitInFrontIsSkipped(d: seq<string>, c: seq<Byte>)
    requires Dictionary(d) && |c| == 8 && Encoding(d, c) != [] && Encoding(d, c)[0] == 'L'
    ensures var e := "1" + Encoding(d, c)[1..]; TypedFor(e, Encoding(d, c)) && Decoding(d, e) != Decoded(1, c)
  {
    var t := Encoding(d, c);
    var e := "1" + t[1..];
    JoinedCharacters(WordsAt(d, Unpacked(Checked(c))));
    TypedForItself(t);
    assert e[1..] == t[1..];
    DecodeAfterEncode(d, c, e);
  }
}
