/** threads/input.c: cutting the bytes of a connection into lines.

    A byte is a signed char, so that every byte above 127 counts as lower than a space.
 */
module LineSplitter {

  type SChar = c: int | -128 <= c < 128

  const NUL: SChar := 0
  const LF: SChar := 10
  const CR: SChar := 13

  /** What is skipped at the start of a line: anything below a space but a newline. */
  predicate IsControl(c: SChar) {
    c != LF && c < 32
  }

  function DropControl(s: seq<SChar>): (t: seq<SChar>)
    ensures |t| <= |s|
  {
    if s == [] || !IsControl(s[0]) then s else DropControl(s[1..])
  }

  function TrimCR(s: seq<SChar>): seq<SChar> {
    if s == [] || s[|s| - 1] != CR then s else TrimCR(s[..|s| - 1])
  }

  /** strstr for a newline, bounded by the bytes at hand: it stops at a NUL. */
  function Newline(s: seq<SChar>): (k: int)
    ensures -1 <= k < |s|
  {
    if s == [] || s[0] == NUL then -1
    else if s[0] == LF then 0
    else
      var k := Newline(s[1..]);
      if k < 0 then -1 else k + 1
  }

  /** What the three searches promise. */
  lemma {:induction false} DropControlMeans(s: seq<SChar>)
    ensures var t := DropControl(s);
            && t == s[|s| - |t|..] && (t != [] ==> !IsControl(t[0]))
            && forall i :: 0 <= i < |s| - |t| ==> IsControl(s[i])
  {
    if s != [] && IsControl(s[0]) {
      DropControlMeans(s[1..]);
    }
  }

  lemma {:induction false} NewlineMeans(s: seq<SChar>)
    ensures var k := Newline(s);
            k >= 0 ==> s[k] == LF && forall i :: 0 <= i < k ==> s[i] != LF && s[i] != NUL
  {
    if s != [] && s[0] != NUL && s[0] != LF {
      NewlineMeans(s[1..]);
    }
  }

  datatype Result = Result(lines: seq<seq<SChar>>, rest: seq<SChar>)

  /** What one pass of the splitting loop makes of a buffer: the lines it hands on, and the
      remainder it keeps (nothing, or bytes that start with no control byte). */
  function Split(s: seq<SChar>): (r: Result)
    decreases |s|
  {
    var t := DropControl(s);
    if t == [] then Result([], [])
    else
      var k := Newline(t);
      if k < 0 then Result([], t)
      else Prepend(TrimCR(t[..k]), Split(t[k + 1..]))
  }

  function Prepend(line: seq<SChar>, r: Result): Result {
    Result([line] + r.lines, r.rest)
  }

  // ----- Chunks

  /** One pass after another. */
  function Then(r: Result, next: Result): Result {
    Result(r.lines + next.lines, next.rest)
  }

  lemma PrependThen(line: seq<SChar>, r: Result, next: Result)
    ensures Then(Prepend(line, r), next) == Prepend(line, Then(r, next))
  {
    assert [line] + r.lines + next.lines == [line] + (r.lines + next.lines);
  }

  /** Splitting the kept remainder with the next chunk goes on where the last pass stopped:
      for every stream, NUL bytes and all, and every way of cutting it into chunks. */
  lemma {:induction false} SplitInChunks(s: seq<SChar>, u: seq<SChar>)
    ensures Split(s + u) == Then(Split(s), Split(Split(s).rest + u))
    decreases |s|
  {
    var t := DropControl(s);
    DropControlInFront(s, u);
    if t == [] {
      assert [] + u == u;
      SplitFromText(s + u);
      SplitFromText(u);
      NothingThen([], Split([] + u));
      assert Split(s) == Result([], []);
    } else if Newline(t) < 0 {
      SplitFromText(s + u);
      NothingThen(t, Split(t + u));
      assert Split(s) == Result([], t);
    } else {
      var k := Newline(t);
      NewlineInFront(t, u);
      SliceInFront(t, u, k);
      SplitInChunks(t[k + 1..], u);
      var line, inner := TrimCR(t[..k]), Split(t[k + 1..]);
      PrependThen(line, inner, Split(inner.rest + u));
      SplitStep(s, t, k);
      SplitStep(s + u, t + u, k);
    }
  }

  lemma NothingThen(rest: seq<SChar>, next: Result)
    ensures Then(Result([], rest), next) == next
  {
    assert [] + next.lines == next.lines;
  }

  lemma {:induction false} SplitStep(s: seq<SChar>, t: seq<SChar>, k: nat)
    requires DropControl(s) == t != [] && Newline(t) == k
    ensures Split(s) == Prepend(TrimCR(t[..k]), Split(t[k + 1..]))
  {
  }

  lemma SliceInFront(t: seq<SChar>, u: seq<SChar>, k: nat)
    requires k < |t|
    ensures (t + u)[..k] == t[..k] && (t + u)[k + 1..] == t[k + 1..] + u
  {
  }

  /** Skipping control bytes first changes nothing. */
  lemma {:induction false} SplitFromText(s: seq<SChar>)
    ensures Split(DropControl(s)) == Split(s)
  {
    DropControlMeans(s);
  }

  lemma {:induction false} DropControlInFront(s: seq<SChar>, u: seq<SChar>)
    ensures DropControl(s + u) == if DropControl(s) == [] then DropControl(u) else DropControl(s) + u
  {
    if s == [] {
      assert s + u == u;
    } else if IsControl(s[0]) {
      assert (s + u)[1..] == s[1..] + u;
      DropControlInFront(s[1..], u);
    }
  }

  lemma {:induction false} NewlineInFront(s: seq<SChar>, u: seq<SChar>)
    requires Newline(s) >= 0
    ensures Newline(s + u) == Newline(s)
  {
    if s[0] != LF {
      assert (s + u)[1..] == s[1..] + u;
      NewlineInFront(s[1..], u);
    }
  }

  function Concat(chunks: seq<seq<SChar>>): seq<SChar> {
    if chunks == [] then [] else chunks[0] + Concat(chunks[1..])
  }

  /** Drain after drain, each with the remainder of the one before in front. */
  function Drains(r: Result, chunks: seq<seq<SChar>>): Result
    decreases |chunks|
  {
    if chunks == [] then r else Drains(Then(r, Split(r.rest + chunks[0])), chunks[1..])
  }

  lemma ConcatAssociates(a: seq<SChar>, b: seq<SChar>, c: seq<SChar>)
    ensures a + b + c == a + (b + c)
  {
  }

  /** However a stream is cut into chunks, the lines handed on and the remainder kept are those
      of splitting the whole stream at once. */
  lemma {:induction false} DrainsSplitTheStream(s: seq<SChar>, chunks: seq<seq<SChar>>)
    ensures Drains(Split(s), chunks) == Split(s + Concat(chunks))
    decreases |chunks|
  {
    if chunks == [] {
      assert s + [] == s;
    } else {
      SplitInChunks(s, chunks[0]);
      DrainsSplitTheStream(s + chunks[0], chunks[1..]);
      ConcatAssociates(s, chunks[0], Concat(chunks[1..]));
    }
  }

  // ----- Against a plain definition of lines, on byte values

  function FirstLF(s: seq<SChar>): (k: nat)
    requires 10 in s
    ensures k < |s| && s[k] == 10 && 10 !in s[..k]
  {
    if s[0] == 10 then 0
    else
      var k := FirstLF(s[1..]);
      assert s[..k + 1] == [s[0]] + s[1..][..k];
      k + 1
  }

  /** The bytes from the first one on that is not below 32. */
  function TextOf(raw: seq<SChar>): seq<SChar> {
    if raw != [] && raw[0] < 32 then TextOf(raw[1..]) else raw
  }

  function LessFinal13s(text: seq<SChar>): seq<SChar> {
    if text != [] && text[|text| - 1] == 13 then LessFinal13s(text[..|text| - 1]) else text
  }

  function LineOf(raw: seq<SChar>): seq<SChar> {
    LessFinal13s(TextOf(raw))
  }

  /** raw is text behind as many bytes below 32 as there are. */
  predicate IsTextOf(text: seq<SChar>, raw: seq<SChar>) {
    && |text| <= |raw| && text == raw[|raw| - |text|..]
    && (forall i :: 0 <= i < |raw| - |text| ==> raw[i] < 32) && (text != [] ==> text[0] >= 32)
  }

  /** text is line in front of as many bytes of value 13 as there are. */
  predicate IsLessFinal13s(line: seq<SChar>, text: seq<SChar>) {
    && line <= text && (forall i :: |line| <= i < |text| ==> text[i] == 13)
    && (line != [] ==> line[|line| - 1] != 13)
  }

  /** What is left is what the longest prefix and the longest suffix leave. */
  lemma {:induction false} TextOfMeans(raw: seq<SChar>, text: seq<SChar>)
    ensures text == TextOf(raw) <==> IsTextOf(text, raw)
  {
    if raw != [] && raw[0] < 32 {
      TextOfMeans(raw[1..], text);
      if |text| < |raw| {
        assert raw[1..][|raw| - 1 - |text|..] == raw[|raw| - |text|..];
        if IsTextOf(text, raw) {
          assert forall i :: 0 <= i < |raw| - 1 - |text| ==> raw[1..][i] == raw[i + 1];
        }
        if IsTextOf(text, raw[1..]) {
          assert forall i :: 0 < i < |raw| - |text| ==> raw[i] == raw[1..][i - 1];
        }
      }
    }
  }

  lemma {:induction false} LessFinal13sMeans(text: seq<SChar>, line: seq<SChar>)
    ensures line == LessFinal13s(text) <==> IsLessFinal13s(line, text)
  {
    if text != [] && text[|text| - 1] == 13 {
      LessFinal13sMeans(text[..|text| - 1], line);
      if |line| < |text| && line <= text {
        assert line <= text[..|text| - 1];
      }
    }
  }

  /** Cut at every 10; of each line drop the leading bytes below 32 and the trailing 13s, of the
      unfinished last one the leading bytes below 32. */
  function Lines(s: seq<SChar>): Result
    decreases |s|
  {
    if 10 !in s then Result([], TextOf(s))
    else
      var k := FirstLF(s);
      Prepend(LineOf(s[..k]), Lines(s[k + 1..]))
  }

  /** No finished line has a 0 behind its leading bytes below 32. */
  predicate Clean(s: seq<SChar>)
    decreases |s|
  {
    10 in s ==> 0 !in TextOf(s[..FirstLF(s)]) && Clean(s[FirstLF(s) + 1..])
  }

  /** The stream from its first line on that is not clean. */
  function FromUnclean(s: seq<SChar>): seq<SChar>
    requires !Clean(s)
    decreases |s|
  {
    if 0 in TextOf(s[..FirstLF(s)]) then s else FromUnclean(s[FirstLF(s) + 1..])
  }

  lemma {:induction false} TextWithoutLF(raw: seq<SChar>)
    requires 10 !in raw
    ensures DropControl(raw) == TextOf(raw)
  {
    if raw != [] {
      assert raw[0] != 10;
      TextWithoutLF(raw[1..]);
    }
  }

  lemma {:induction false} TrimIsLess13s(text: seq<SChar>)
    ensures TrimCR(text) == LessFinal13s(text)
  {
    if text != [] {
      TrimIsLess13s(text[..|text| - 1]);
    }
  }

  lemma {:induction false} NewlineAt(t: seq<SChar>, j: nat)
    requires j < |t| && t[j] == LF && LF !in t[..j]
    ensures Newline(t) == if NUL in t[..j] then -1 else j
    decreases j
  {
    if j > 0 {
      assert t[0] == t[..j][0];
      assert t[..j] == [t[0]] + t[1..][..j - 1];
      NewlineAt(t[1..], j - 1);
    }
  }

  lemma {:induction false} NoNewline(t: seq<SChar>)
    requires LF !in t
    ensures Newline(t) == -1
  {
    NewlineMeans(t);
  }

  /** Skipping control bytes never skips a newline. */
  lemma {:induction false} DropControlBeforeLF(s: seq<SChar>)
    requires LF in s
    ensures DropControl(s) == DropControl(s[..FirstLF(s)]) + s[FirstLF(s)..]
  {
    var line, tail := s[..FirstLF(s)], s[FirstLF(s)..];
    assert s == line + tail;
    DropControlInFront(line, tail);
    TextStays(DropControl(line), tail);
  }

  lemma {:induction false} TextStays(line: seq<SChar>, tail: seq<SChar>)
    requires tail != [] && !IsControl(tail[0])
    ensures line == [] ==> DropControl(tail) == line + tail
  {
  }

  lemma SplitAtSeparator(line: seq<SChar>, tail: seq<SChar>)
    requires tail != []
    ensures var t := line + tail;
            t[|line|] == tail[0] && t[..|line|] == line && t[|line| + 1..] == tail[1..]
  {
  }

  /** Where the first line of a stream lies. */
  lemma {:induction false} FirstLineText(s: seq<SChar>)
    requires LF in s
    ensures var k := FirstLF(s); var line := TextOf(s[..k]); var t := DropControl(s);
      && |line| < |t| && t[..|line|] == line && t[|line| + 1..] == s[k + 1..] && t == line + s[k..]
      && Newline(t) == if NUL in line then -1 else |line|
  {
    var k := FirstLF(s);
    var line := DropControl(s[..k]);
    TextWithoutLF(s[..k]);
    DropControlBeforeLF(s);
    SplitAtSeparator(line, s[k..]);
    assert s[k..][1..] == s[k + 1..];
    DropControlMeans(s[..k]);
    assert LF !in line;
    NewlineAt(DropControl(s), |line|);
  }

  /** The first line of a stream, to the code. */
  lemma {:induction false} FirstLine(s: seq<SChar>)
    requires LF in s
    ensures var k := FirstLF(s); var line := TextOf(s[..k]);
            if NUL in line then Split(s) == Result([], line + s[k..])
            else Split(s) == Prepend(LineOf(s[..k]), Split(s[k + 1..]))
  {
    FirstLineText(s);
    var line := TextOf(s[..FirstLF(s)]);
    TrimIsLess13s(line);
    if NUL !in line {
      SplitStep(s, DropControl(s), |line|);
    }
  }

  /** A text with a byte of 32 or above, or behind whose bytes below 32 something comes. */
  lemma {:induction false} TextInFront(raw: seq<SChar>, tail: seq<SChar>)
    requires TextOf(raw) != []
    ensures TextOf(raw + tail) == TextOf(raw) + tail
  {
    if raw[0] < 32 {
      assert (raw + tail)[1..] == raw[1..] + tail;
      TextInFront(raw[1..], tail);
    }
  }

  /** The code agrees with the plain definition exactly on the clean streams; on any other it
      hands on the lines before the first one that is not. */
  lemma {:induction false} SplitIsLines(s: seq<SChar>)
    ensures Clean(s) <==> Split(s).lines == Lines(s).lines
    ensures Clean(s) ==> Split(s) == Lines(s)
    ensures Split(s).lines <= Lines(s).lines
    decreases |s|
  {
    if 10 in s {
      FirstLine(s);
      var k := FirstLF(s);
      SplitIsLines(s[k + 1..]);
      PrependOrder(LineOf(s[..k]), Split(s[k + 1..]), Lines(s[k + 1..]));
    } else {
      SplitWithoutNewline(s);
    }
  }

  /** And it keeps everything from there on. */
  lemma {:induction false} UncleanIsKept(s: seq<SChar>)
    requires !Clean(s)
    ensures Split(s).rest == TextOf(FromUnclean(s))
    decreases |s|
  {
    FirstLine(s);
    var k := FirstLF(s);
    if 0 in TextOf(s[..k]) {
      TextInFront(s[..k], s[k..]);
      assert s[..k] + s[k..] == s;
    } else {
      UncleanIsKept(s[k + 1..]);
    }
  }

  /** Raw lines, each with the 10 that ends it. */
  function Ended(raws: seq<seq<SChar>>): seq<SChar> {
    if raws == [] then [] else raws[0] + [10] + Ended(raws[1..])
  }

  lemma RawFirst(raw: seq<SChar>, tail: seq<SChar>)
    requires 10 !in raw
    ensures var s := raw + [10] + tail;
      10 in s && FirstLF(s) == |raw| && s[..|raw|] == raw && s[|raw| + 1..] == tail
  {
    var s := raw + [10] + tail;
    assert s[|raw|] == 10;
    assert forall i :: 0 <= i < |raw| ==> s[i] == raw[i];
    FirstLFIs(s, |raw|);
  }

  lemma {:induction false} FirstLFIs(s: seq<SChar>, k: nat)
    requires k < |s| && s[k] == 10 && forall i :: 0 <= i < k ==> s[i] != 10
    ensures FirstLF(s) == k
  {
    if k > 0 {
      FirstLFIs(s[1..], k - 1);
    }
  }

  function LinesOf(raws: seq<seq<SChar>>): (lines: seq<seq<SChar>>)
    ensures |lines| == |raws| && forall i :: 0 <= i < |raws| ==> lines[i] == LineOf(raws[i])
  {
    if raws == [] then [] else [LineOf(raws[0])] + LinesOf(raws[1..])
  }

  /** The lines of a stream are the stretches between its 10s, each less its bytes below 32 in front
      and its 13s at the end. */
  lemma {:induction false} LinesLieBetween10s(raws: seq<seq<SChar>>, last: seq<SChar>)
    requires 10 !in last && forall raw <- raws :: 10 !in raw
    ensures Lines(Ended(raws) + last) == Result(LinesOf(raws), TextOf(last))
    decreases |raws|
  {
    if raws == [] {
      assert Ended(raws) + last == last;
    } else {
      var tail := Ended(raws[1..]) + last;
      assert Ended(raws) + last == raws[0] + [10] + tail;
      RawFirst(raws[0], tail);
      LinesLieBetween10s(raws[1..], last);
    }
  }

  lemma PrependOrder(line: seq<SChar>, a: Result, b: Result)
    ensures Prepend(line, a).lines == Prepend(line, b).lines <==> a.lines == b.lines
    ensures a.lines <= b.lines ==> Prepend(line, a).lines <= Prepend(line, b).lines
  {
    assert Prepend(line, a).lines[1..] == a.lines && Prepend(line, b).lines[1..] == b.lines;
  }

  lemma {:induction false} SplitWithoutNewline(s: seq<SChar>)
    requires LF !in s
    ensures Split(s) == Result([], TextOf(s))
  {
    TextWithoutLF(s);
    DropControlMeans(s);
    NoNewline(DropControl(s));
  }

  // ----- Positions in a buffer

  lemma {:induction false} DropSkips(s: seq<SChar>, n: nat)
    requires n <= |s| && forall i :: 0 <= i < n ==> IsControl(s[i])
    ensures DropControl(s) == DropControl(s[n..])
    decreases n
  {
    if n > 0 {
      assert s[1..][n - 1..] == s[n..];
      DropSkips(s[1..], n - 1);
    } else {
      assert s[0..] == s;
    }
  }

  /** What comes first once the first n bytes, all of them control bytes, have been skipped. */
  lemma {:induction false} SkipInSplit(s: seq<SChar>, n: nat)
    requires n <= |s| && forall i :: 0 <= i < n ==> IsControl(s[i])
    ensures n == |s| ==> Split(s) == Result([], [])
    ensures n < |s| && s[n] == NUL ==> Split(s) == Split(s[n + 1..])
    ensures n < |s| && !IsControl(s[n]) ==> DropControl(s) == s[n..]
  {
    DropSkips(s, n);
    if n < |s| && s[n] == NUL {
      DropSkips(s, n + 1);
      SplitFromText(s);
      SplitFromText(s[n + 1..]);
    }
  }

  lemma ConcatLines(a: seq<seq<SChar>>, b: seq<seq<SChar>>, c: seq<seq<SChar>>)
    ensures a + b + c == a + (b + c)
  {
  }

  lemma {:induction false} NewlineIs(t: seq<SChar>, k: nat)
    requires k <= |t| && forall i :: 0 <= i < k ==> t[i] != LF && t[i] != NUL
    requires k < |t| ==> t[k] == LF || t[k] == NUL
    ensures Newline(t) == if k < |t| && t[k] == LF then k else -1
    decreases k
  {
    if k > 0 {
      NewlineIs(t[1..], k - 1);
    }
  }

  lemma {:induction false} TrimIs(s: seq<SChar>, n: nat)
    requires n <= |s| && (n > 0 ==> s[n - 1] != CR) && forall i :: n <= i < |s| ==> s[i] == CR
    ensures TrimCR(s) == s[..n]
    decreases |s|
  {
    if n < |s| {
      TrimIs(s[..|s| - 1], n);
    } else {
      assert s[..n] == s;
    }
  }

  /** The lines so far, one line more, and what is left of the buffer. */
  lemma {:induction false} LineInSplit(s: seq<SChar>, lines: seq<seq<SChar>>, u: seq<SChar>, t: seq<SChar>, k: nat)
    requires Split(s) == Then(Result(lines, []), Split(u)) && DropControl(u) == t != [] && Newline(t) == k
    ensures Split(s) == Then(Result(lines + [TrimCR(t[..k])], []), Split(t[k + 1..]))
  {
    SplitStep(u, t, k);
    ThenOneMore(lines, TrimCR(t[..k]), Split(t[k + 1..]));
  }

  lemma ThenOneMore(lines: seq<seq<SChar>>, line: seq<SChar>, next: Result)
    ensures Then(Result(lines, []), Prepend(line, next)) == Then(Result(lines + [line], []), next)
  {
    assert lines + ([line] + next.lines) == lines + [line] + next.lines;
  }

  /** The lines so far, and an unfinished one. */
  lemma {:induction false} RestInSplit(s: seq<SChar>, lines: seq<seq<SChar>>, u: seq<SChar>, t: seq<SChar>)
    requires Split(s) == Then(Result(lines, []), Split(u)) && DropControl(u) == t != [] && Newline(t) < 0
    ensures Split(s) == Result(lines, t)
  {
    assert lines + [] == lines;
  }

  /** How far the split of s has come: these lines, and either left is still to be split or kept
      is the unfinished line. */
  ghost predicate SoFar(s: seq<SChar>, lines: seq<seq<SChar>>, open: bool, left: seq<SChar>, kept: seq<SChar>) {
    Split(s) == if open then Then(Result(lines, []), Split(left)) else Result(lines, kept)
  }

  /** What the next piece of text adds: a line, or the unfinished one. */
  lemma {:induction false} NextPiece(s: seq<SChar>, lines: seq<seq<SChar>>, u: seq<SChar>, t: seq<SChar>)
    requires SoFar(s, lines, true, u, []) && DropControl(u) == t != []
    ensures var k := Newline(t);
      if k >= 0 then SoFar(s, lines + [TrimCR(t[..k])], true, t[k + 1..], []) else SoFar(s, lines + [], false, [], t)
  {
    if Newline(t) >= 0 {
      LineInSplit(s, lines, u, t, Newline(t));
    } else {
      RestInSplit(s, lines, u, t);
      assert lines + [] == lines;
    }
  }
}
