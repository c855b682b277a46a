/** havokweb/md5.js, rstr2any: a byte string as a number written in any base. */
module BaseConversion {

  const WORD: int := 0x1_0000

  function Pow(d: nat, n: nat): nat {
    if n == 0 then 1 else d * Pow(d, n - 1)
  }

  /** The number that digits denote in a base, most significant digit first. */
  function Denoted(base: nat, digits: seq<nat>): nat {
    if digits == [] then 0 else Denoted(base, digits[..|digits| - 1]) * base + digits[|digits| - 1]
  }

  /** The same, least significant digit first. */
  function FromLeast(base: nat, digits: seq<nat>): nat {
    if digits == [] then 0 else digits[0] + base * FromLeast(base, digits[1..])
  }

  ghost predicate Below(s: seq<nat>, bound: nat) {
    forall i :: 0 <= i < |s| ==> s[i] < bound
  }

  lemma DenotedStep(base: nat, digits: seq<nat>, x: nat)
    ensures Denoted(base, digits + [x]) == Denoted(base, digits) * base + x
  {
    assert (digits + [x])[..|digits|] == digits;
  }

  /** A number of n digits is below the n-th power of the base. */
  lemma {:induction false} DenotedBound(base: nat, digits: seq<nat>)
    requires Below(digits, base)
    ensures Denoted(base, digits) < Pow(base, |digits|)
  {
    if digits != [] {
      var front := digits[..|digits| - 1];
      DenotedBound(base, front);
      assert digits[|digits| - 1] < base;
      Shift(Denoted(base, front), digits[|digits| - 1], base, Pow(base, |front|));
    }
  }

  lemma Shift(n: nat, x: nat, base: nat, p: nat)
    requires n < p && x < base
    ensures n * base + x < base * p
  {
    assert (n + 1) * base <= p * base;
  }

  lemma Assoc(a: int, b: int, c: int)
    ensures a * (b * c) == (a * b) * c
  {
  }

  /** Appending a most significant digit. */
  lemma {:induction false} FromLeastAppend(d: nat, rs: seq<nat>, x: nat)
    ensures FromLeast(d, rs + [x]) == FromLeast(d, rs) + x * Pow(d, |rs|)
  {
    if rs == [] {
      assert FromLeast(d, [x]) == x + d * FromLeast(d, []);
    } else {
      assert (rs + [x])[1..] == rs[1..] + [x];
      FromLeastAppend(d, rs[1..], x);
      Spread(d, FromLeast(d, rs[1..]), x, Pow(d, |rs| - 1));
    }
  }

  lemma Spread(d: nat, a: nat, x: nat, p: nat)
    ensures d * (a + x * p) == d * a + x * (d * p)
  {
  }

  lemma {:induction false} FromLeastIsReversed(d: nat, rs: seq<nat>)
    ensures Denoted(d, Reversed(rs)) == FromLeast(d, rs)
  {
    if rs != [] {
      FromLeastIsReversed(d, rs[1..]);
      DenotedStep(d, Reversed(rs[1..]), rs[0]);
    }
  }

  function Reversed(s: seq<nat>): seq<nat> {
    if s == [] then [] else Reversed(s[1..]) + [s[0]]
  }

  /** x << 16 on 32-bit integers. */
  function ShiftLeft16(x: int): int {
    (x * WORD + 0x8000_0000) % 0x1_0000_0000 - 0x8000_0000
  }

  /** One step of the long division: bring down a word, divide. */
  method DivideWord(before: nat, word: nat, divisor: nat) returns (q: nat, x: nat)
    requires 2 <= divisor <= 0x8000 && before < divisor && word < WORD
    ensures before * WORD + word == q * divisor + x && x < divisor && q < WORD
  {
    var y := ShiftLeft16(before) + word;
    assert y == before * WORD + word;
    q := y / divisor;
    x := y - q * divisor;
    QuotientIsAWord(divisor, before, word);
  }

  lemma QuotientIsAWord(d: nat, x: nat, word: nat)
    requires 0 < d && x < d && word < WORD
    ensures (x * WORD + word) / d < WORD
  {
    assert (x + 1) * WORD <= d * WORD;
  }

  lemma DivideStep(d: nat, num: nat, quotient: nat, before: nat, word: nat, q: nat, x: nat)
    requires num == quotient * d + before && before * WORD + word == q * d + x
    ensures num * WORD + word == (quotient * WORD + q) * d + x
  {
    assert (quotient * WORD + q) * d == quotient * WORD * d + q * d;
    assert quotient * WORD * d == quotient * d * WORD;
  }

  /** The inner loop: divide a number of 16-bit words by the divisor. */
  method Divide(dividend: seq<nat>, divisor: nat) returns (quotient: seq<nat>, x: nat)
    requires 2 <= divisor <= 0x8000 && Below(dividend, WORD)
    ensures x < divisor && Below(quotient, WORD) && |quotient| <= |dividend|
    ensures Denoted(WORD, dividend) == Denoted(WORD, quotient) * divisor + x
  {
    quotient, x := [], 0;
    var i := 0;
    while i < |dividend|
      invariant 0 <= i <= |dividend| && x < divisor && Below(quotient, WORD) && |quotient| <= i
      invariant Denoted(WORD, dividend[..i]) == Denoted(WORD, quotient) * divisor + x
    {
      ghost var before := x;
      var q;
      q, x := DivideWord(x, dividend[i], divisor);
      DivideStep(divisor, Denoted(WORD, dividend[..i]), Denoted(WORD, quotient), before, dividend[i], q, x);
      DenotedStep(WORD, dividend[..i], dividend[i]);
      assert dividend[..i + 1] == dividend[..i] + [dividend[i]];
      if |quotient| > 0 || q > 0 {
        DenotedStep(WORD, quotient, q);
        quotient := quotient + [q];
      }
      i := i + 1;
    }
    assert dividend[..i] == dividend;
  }

  /** A missing last byte counts as zero. */
  function Padded(input: seq<nat>): seq<nat> {
    if |input| % 2 == 0 then input else input + [0]
  }

  /** The string as 16-bit words. */
  method ToWords(input: seq<nat>) returns (dividend: seq<nat>)
    requires Below(input, 256)
    ensures Below(dividend, WORD) && Denoted(WORD, dividend) == Denoted(256, Padded(input))
  {
    ghost var bytes := Padded(input);
    dividend := [];
    var i := 0;
    while i < (|input| + 1) / 2
      invariant 0 <= 2 * i <= |bytes| && Below(dividend, WORD)
      invariant Denoted(WORD, dividend) == Denoted(256, bytes[..2 * i])
    {
      var high, low := input[i * 2], if i * 2 + 1 < |input| then input[i * 2 + 1] else 0;
      DenotedStep(256, bytes[..2 * i], high);
      DenotedStep(256, bytes[..2 * i] + [high], low);
      DenotedStep(WORD, dividend, high * 256 + low);
      assert bytes[..2 * (i + 1)] == bytes[..2 * i] + [high] + [low];
      dividend := dividend + [high * 256 + low];
      i := i + 1;
    }
    assert bytes[..2 * i] == bytes;
  }

  /** What the remainders of repeated division add up to. */
  lemma RemainderStep(d: nat, rs: seq<nat>, num: nat, quotient: nat, x: nat)
    requires num == quotient * d + x
    ensures FromLeast(d, rs) + num * Pow(d, |rs|) == FromLeast(d, rs + [x]) + quotient * Pow(d, |rs| + 1)
  {
    FromLeastAppend(d, rs, x);
    Distribute(quotient, d, x, Pow(d, |rs|));
  }

  lemma Distribute(q: nat, d: nat, x: nat, p: nat)
    ensures (q * d + x) * p == q * (d * p) + x * p
  {
    Assoc(q, d, p);
  }

  lemma {:induction false} FromLeastBound(d: nat, rs: seq<nat>)
    requires Below(rs, d)
    ensures FromLeast(d, rs) < Pow(d, |rs|)
  {
    if rs != [] {
      assert rs[0] < d;
      FromLeastBound(d, rs[1..]);
      Shift(FromLeast(d, rs[1..]), rs[0], d, Pow(d, |rs| - 1));
    }
  }

  lemma Multiple(k: nat, p: nat)
    requires k > 0
    ensures k * p >= p
  {
  }

  lemma ModuloIs(v: nat, r: nat, k: nat, p: nat)
    requires v == r + k * p && r < p
    ensures v % p == r && (v < p <==> v == r)
  {
    var q, m := v / p, v % p;
    assert (k - q) * p == k * p - q * p == m - r;
    if k > q {
      Multiple(k - q, p);
    } else if k < q {
      Multiple(q - k, p);
    }
    if k > 0 {
      Multiple(k, p);
    }
  }

  method Remainders(words: seq<nat>, divisor: nat, fullLength: nat) returns (remainders: seq<nat>)
    requires 2 <= divisor <= 0x8000 && Below(words, WORD)
    ensures |remainders| == fullLength && Below(remainders, divisor)
    ensures exists rest: nat :: Denoted(WORD, words) == FromLeast(divisor, remainders) + rest * Pow(divisor, fullLength)
  {
    var dividend := words;
    remainders := [];
    var j := 0;
    while j < fullLength
      invariant 0 <= j <= fullLength && |remainders| == j && Below(remainders, divisor) && Below(dividend, WORD)
      invariant Denoted(WORD, words)
             == FromLeast(divisor, remainders) + Denoted(WORD, dividend) * Pow(divisor, j)
    {
      var quotient, x := Divide(dividend, divisor);
      RemainderStep(divisor, remainders, Denoted(WORD, dividend), Denoted(WORD, quotient), x);
      remainders := remainders + [x];
      dividend := quotient;
      j := j + 1;
    }
  }

  /** The number that is printed in a base with so many digits. */
  ghost function Printed(d: nat, input: seq<nat>, fullLength: nat): nat
    requires d > 0
  {
    PowIsPositive(d, fullLength);
    Denoted(256, Padded(input)) % Pow(d, fullLength)
  }

  lemma {:induction false} PowIsPositive(d: nat, n: nat)
    requires d > 0
    ensures Pow(d, n) > 0
  {
    if n > 0 {
      PowIsPositive(d, n - 1);
      Multiple(d, Pow(d, n - 1));
      Multiple(Pow(d, n - 1), d);
    }
  }

  lemma ModuloIsSame(v: nat, p: nat)
    requires p > 0
    ensures v % p == v <==> v < p
  {
    if v < p {
      ModuloIs(v, v, 0, p);
    }
  }

  lemma OddModulo(n: nat, p: nat)
    requires p > 0
    ensures 256 * n % p == n <==> n < p && 255 * n % p == 0
  {
    if 256 * n % p == n {
      ModuloIs(255 * n, 0, 256 * n / p, p);
    }
    if n < p && 255 * n % p == 0 {
      ModuloIs(256 * n, n, 255 * n / p, p);
    }
  }

  /** The digits denote the bytes' own number: for an even number of bytes just when it fits. An
      odd number of bytes is printed as if a zero byte followed, and then seldom right. */
  lemma PrintedExactly(d: nat, input: seq<nat>, fullLength: nat)
    requires d > 0
    ensures Pow(d, fullLength) > 0
    ensures var n, p := Denoted(256, input), Pow(d, fullLength);
      Printed(d, input, fullLength) == n <==> n < p && (|input| % 2 == 1 ==> 255 * n % p == 0)
  {
    PowIsPositive(d, fullLength);
    var odd := |input| % 2 == 1;
    if odd {
      DenotedStep(256, input, 0);
    }
    Exactly(Denoted(256, Padded(input)), Denoted(256, input), odd, Pow(d, fullLength));
  }

  lemma Exactly(v: nat, n: nat, odd: bool, p: nat)
    requires p > 0 && v == if odd then n * 256 else n
    ensures v % p == n <==> n < p && (odd ==> 255 * n % p == 0)
  {
    if odd {
      OddModulo(n, p);
    } else {
      ModuloIsSame(n, p);
    }
  }

  /** One byte 0xff in hexadecimal comes out as two zeros. */
  lemma OddInputIsLost()
    ensures Denoted(256, [255]) == 255 && Printed(16, [255], 2) == 0
  {
    DenotedStep(256, [], 255);
    DenotedStep(256, [255], 0);
    assert [] + [255] == [255] && Padded([255]) == [255] + [0];
    assert Pow(16, 0) == 1 && Pow(16, 1) == 16 && Pow(16, 2) == 256;
  }

  /** rstr2any. The length that the floating-point logarithms give is a parameter. The digits
      denote what is printed, and for an even number of bytes the bytes' number when so many digits
      hold as many bytes. */
  method Convert(input: seq<nat>, encoding: string, fullLength: nat) returns (output: string, digits: seq<nat>)
    requires 2 <= |encoding| <= 0x8000 && Below(input, 256)
    ensures |output| == |digits| == fullLength && Below(digits, |encoding|)
    ensures forall i :: 0 <= i < fullLength ==> output[i] == encoding[digits[i]]
    ensures Denoted(|encoding|, digits) == Printed(|encoding|, input, fullLength)
    ensures |input| % 2 == 0 && Pow(256, |input|) <= Pow(|encoding|, fullLength) ==>
              Denoted(|encoding|, digits) == Denoted(256, input)
  {
    var d := |encoding|;
    var dividend := ToWords(input);
    var remainders := Remainders(dividend, d, fullLength);
    ghost var v := Denoted(256, Padded(input));
    FromLeastBound(d, remainders);
    assert exists rest: nat :: v == FromLeast(d, remainders) + rest * Pow(d, fullLength);
    ghost var rest: nat :| v == FromLeast(d, remainders) + rest * Pow(d, fullLength);
    ModuloIs(v, FromLeast(d, remainders), rest, Pow(d, fullLength));
    if |input| % 2 == 0 {
      DenotedBound(256, input);
      PrintedExactly(d, input, fullLength);
    }
    output, digits := Spell(remainders, encoding);
    FromLeastIsReversed(d, remainders);
  }

  /** The remainders, last one first, as characters. */
  method Spell(remainders: seq<nat>, encoding: string) returns (output: string, digits: seq<nat>)
    requires Below(remainders, |encoding|)
    ensures digits == Reversed(remainders) && |output| == |digits| == |remainders| && Below(digits, |encoding|)
    ensures forall i :: 0 <= i < |output| ==> output[i] == encoding[digits[i]]
  {
    output, digits := "", [];
    var i := |remainders|;
    while i > 0
      invariant 0 <= i <= |remainders| && digits == Reversed(remainders[i..]) && Below(digits, |encoding|)
      invariant |output| == |digits| == |remainders| - i
      invariant forall k :: 0 <= k < |output| ==> output[k] == encoding[digits[k]]
    {
      i := i - 1;
      output := output + [encoding[remainders[i]]];
      digits := digits + [remainders[i]];
    }
  }
}
