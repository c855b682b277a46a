/** util/btoe.c: bit fields across byte boundaries, and the layout of six 11-bit words.

    Bit operations on bytes are written arithmetically: a left shift is a multiplication and a
    right shift a division by a power of two, masking with n ones is a remainder.  Reads past
    the end of an array see arbitrary bytes, and the theorems hold for all of them.
 */
module WordBits {
  import opened Basics

  type Byte = b: int | 0 <= b < 256

  // ----- Bit fields

  /** extract: the field of the given length at bit start, from three adjacent bytes. */
  function Extract(s: seq<Byte>, start: nat, length: nat): (x: int)
    requires start / 8 + 2 < |s| && start % 8 + length <= 24
    ensures 0 <= x < Pow2(length)
  {
    var w: int := 65536 * (s[start / 8] as int) + 256 * (s[start / 8 + 1] as int) + s[start / 8 + 2] as int;
    w / Pow2(24 - length - start % 8) % Pow2(length)
  }

  /** Bitwise or of the n low bits. */
  function OrBits(a: nat, b: nat, n: nat): (c: nat)
    ensures c < Pow2(n)
  {
    if n == 0 then 0
    else 2 * OrBits(a / 2, b / 2, n - 1) + if a % 2 == 1 || b % 2 == 1 then 1 else 0
  }

  function Or(a: Byte, b: Byte): Byte {
    assert Pow2(8) == 256;
    OrBits(a, b, 8)
  }

  /** Or the low bytes of y into the bytes from i on, as many as width bits reach. */
  function Overlay(s: seq<Byte>, i: nat, y: nat, width: nat): (r: seq<Byte>)
    requires i + 2 < |s|
    ensures |r| == |s|
  {
    if width > 16 then
      s[i := Or(s[i], y / 65536 % 256)][i + 1 := Or(s[i + 1], y / 256 % 256)][i + 2 := Or(s[i + 2], y % 256)]
    else if width > 8 then
      s[i := Or(s[i], y / 256 % 256)][i + 1 := Or(s[i + 1], y % 256)]
    else
      s[i := Or(s[i], y % 256)]
  }

  /** insert, as a function: or the value x into the field of the given length at bit start. */
  function Inserted(s: seq<Byte>, x: nat, start: nat, length: nat): (r: seq<Byte>)
    requires start / 8 + 2 < |s|
    ensures |r| == |s|
  {
    var shift := (8 - (start + length) % 8) % 8;
    Overlay(s, start / 8, x * Pow2(shift), shift + length)
  }

  // ----- The layout of six 11-bit words in 66 bits

  predicate IsWords(w: seq<nat>) {
    |w| == 6 && forall i :: 0 <= i < 6 ==> w[i] < 2048
  }

  /** The nine bytes that hold six words; the last six bits are zero. */
  function Layout(a: nat, b: nat, c: nat, d: nat, e: nat, f: nat): (s: seq<Byte>)
    requires a < 2048 && b < 2048 && c < 2048 && d < 2048 && e < 2048 && f < 2048
    ensures |s| == 9
  {
    [ a / 8,
      a % 8 * 32 + b / 64,
      b % 64 * 4 + c / 512,
      c / 2 % 256,
      c % 2 * 128 + d / 16,
      d % 16 * 16 + e / 128,
      e % 128 * 2 + f / 1024,
      f / 4 % 256,
      f % 4 * 64 ]
  }

  function Bytes(w: seq<nat>): (s: seq<Byte>)
    requires IsWords(w)
    ensures |s| == 9
  {
    Layout(w[0], w[1], w[2], w[3], w[4], w[5])
  }

  /** The big-endian number of a byte sequence. */
  function Big(s: seq<Byte>): nat {
    if s == [] then 0 else 256 * Big(s[..|s| - 1]) + (s[|s| - 1] as int)
  }

  /** The number with the given digits in base 2048. */
  function Base2048(w: seq<nat>): nat {
    if w == [] then 0 else 2048 * Base2048(w[..|w| - 1]) + w[|w| - 1]
  }

  lemma {:induction false} BigStep(s: seq<Byte>, k: nat)
    requires k < |s|
    ensures Big(s[..k + 1]) == 256 * Big(s[..k]) + s[k] as int
  {
    assert s[..k + 1][..k] == s[..k];
  }

  lemma {:induction false} Base2048Step(w: seq<nat>, k: nat)
    requires k < |w|
    ensures Base2048(w[..k + 1]) == 2048 * Base2048(w[..k]) + w[k]
  {
    assert w[..k + 1][..k] == w[..k];
  }

  lemma {:induction false} MiddleByte(w: nat)
    requires w < 2048
    ensures 256 * (w / 512) + w / 2 % 256 == w / 2
    ensures 256 * (w / 1024) + w / 4 % 256 == w / 4
  {
    assert w / 2 / 256 == w / 512;
    assert w / 4 / 256 == w / 1024;
  }

  lemma {:induction false} LayoutFirstHalf(w: seq<nat>)
    requires IsWords(w)
    ensures Big(Bytes(w)[..5]) == 128 * Base2048(w[..3]) + w[3] / 16
  {
    var s := Bytes(w);
    BigStep(s, 0); BigStep(s, 1); Base2048Step(w, 0);
    assert Big(s[..2]) == 32 * Base2048(w[..1]) + w[1] / 64;
    BigStep(s, 2); Base2048Step(w, 1);
    assert Big(s[..3]) == 4 * Base2048(w[..2]) + w[2] / 512;
    BigStep(s, 3); MiddleByte(w[2]);
    assert Big(s[..4]) == 1024 * Base2048(w[..2]) + w[2] / 2;
    BigStep(s, 4); Base2048Step(w, 2);
  }

  /** The layout is positional: the six words are the base-2048 digits of the 66-bit number,
      followed by the six zero bits that fill up the last byte. */
  lemma {:induction false} LayoutIsPositional(w: seq<nat>)
    requires IsWords(w)
    ensures Big(Bytes(w)) == 64 * Base2048(w)
  {
    var s := Bytes(w);
    assert s[..9] == s && w[..6] == w;
    LayoutFirstHalf(w);
    BigStep(s, 5); Base2048Step(w, 3);
    assert Big(s[..6]) == 16 * Base2048(w[..4]) + w[4] / 128;
    BigStep(s, 6); Base2048Step(w, 4);
    assert Big(s[..7]) == 2 * Base2048(w[..5]) + w[5] / 1024;
    BigStep(s, 7); MiddleByte(w[5]);
    assert Big(s[..8]) == 512 * Base2048(w[..5]) + w[5] / 4;
    BigStep(s, 8); Base2048Step(w, 5);
  }

  // ----- Reading and writing the six words

  /** The six 11-bit fields that opiebtoe extracts. */
  function Fields(s: seq<Byte>): (w: seq<nat>)
    requires |s| >= 9
    ensures IsWords(w)
  {
    assert Pow2(11) == 2048;
    [Extract(s, 0, 11), Extract(s, 11, 11), Extract(s, 22, 11),
     Extract(s, 33, 11), Extract(s, 44, 11), Extract(s, 55, 11)]
  }

  lemma {:induction false} Quotient(x: int, d: int, q: int, r: int)
    requires d > 0 && x == d * q + r && 0 <= r < d
    ensures x / d == q && x % d == r
  {
    var e := x / d - q;
    assert d * e == r - x % d;
    if e >= 1 {
    } else if e <= -1 {
    }
  }

  lemma {:induction false} FieldOf(w: int, d: int, q: int, v: int, r: int)
    requires d > 0 && w == d * (2048 * q + v) + r && 0 <= r < d && 0 <= v < 2048
    ensures w / d % 2048 == v
  {
    Quotient(w, d, 2048 * q + v, r);
    Quotient(2048 * q + v, 2048, q, v);
  }

  /** Three adjacent bytes as one number, and the 11-bit fields that straddle them. */
  lemma {:induction false} StraddlingFields(a: int, b: int, c: int)
    requires 0 <= a < 256 && 0 <= b < 256 && 0 <= c < 256
    ensures var w := 65536 * a + 256 * b + c;
            && w / 8192 % 2048 == a * 8 + b / 32
            && w / 1024 % 2048 == a % 32 * 64 + b / 4
            && w / 128 % 2048 == a % 4 * 512 + b * 2 + c / 128
            && w / 4096 % 2048 == a % 128 * 16 + b / 16
            && w / 512 % 2048 == a % 16 * 128 + b / 2
            && w / 64 % 2048 == a % 2 * 1024 + b * 4 + c / 64
  {
    var w := 65536 * a + 256 * b + c;
    FieldOf(w, 8192, 0, a * 8 + b / 32, b % 32 * 256 + c);
    FieldOf(w, 1024, a / 32, a % 32 * 64 + b / 4, b % 4 * 256 + c);
    FieldOf(w, 128, a / 4, a % 4 * 512 + b * 2 + c / 128, c % 128);
    FieldOf(w, 4096, a / 128, a % 128 * 16 + b / 16, b % 16 * 256 + c);
    FieldOf(w, 512, a / 16, a % 16 * 128 + b / 2, b % 2 * 256 + c);
    FieldOf(w, 64, a / 2, a % 2 * 1024 + b * 4 + c / 64, c % 64);
  }

  /** The fields, byte by byte. */
  function Unpacked(s: seq<Byte>): (w: seq<nat>)
    requires |s| >= 9
    ensures IsWords(w)
  {
    [ (s[0] as int) * 8 + s[1] / 32,
      (s[1] as int) % 32 * 64 + s[2] / 4,
      (s[2] as int) % 4 * 512 + (s[3] as int) * 2 + s[4] / 128,
      (s[4] as int) % 128 * 16 + s[5] / 16,
      (s[5] as int) % 16 * 128 + s[6] / 2,
      (s[6] as int) % 2 * 1024 + (s[7] as int) * 4 + s[8] / 64 ]
  }

  lemma {:induction false} Powers()
    ensures Pow2(6) == 64 && Pow2(7) == 128 && Pow2(9) == 512 && Pow2(10) == 1024
    ensures Pow2(11) == 2048 && Pow2(12) == 4096 && Pow2(13) == 8192
  {
    assert Pow2(6) == 64;
    assert Pow2(9) == 512;
    assert Pow2(11) == 2048;
  }

  lemma {:induction false} FieldIsUnpacked(s: seq<Byte>, k: nat)
    requires |s| >= 9 && k < 6
    ensures Extract(s, 11 * k, 11) == Unpacked(s)[k]
  {
    Powers();
    var i := 11 * k / 8;
    StraddlingFields(s[i], s[i + 1], s[i + 2]);
    if k == 0 {
      assert i == 0 && 11 * k % 8 == 0;
    } else if k == 1 {
      assert i == 1 && 11 * k % 8 == 3;
    } else if k == 2 {
      assert i == 2 && 11 * k % 8 == 6;
    } else if k == 3 {
      assert i == 4 && 11 * k % 8 == 1;
    } else if k == 4 {
      assert i == 5 && 11 * k % 8 == 4;
    } else {
      assert i == 6 && 11 * k % 8 == 7;
    }
  }

  lemma {:induction false} FieldsAreUnpacked(s: seq<Byte>)
    requires |s| >= 9
    ensures Fields(s) == Unpacked(s)
  {
    FieldIsUnpacked(s, 0);
    FieldIsUnpacked(s, 1);
    FieldIsUnpacked(s, 2);
    FieldIsUnpacked(s, 3);
    FieldIsUnpacked(s, 4);
    FieldIsUnpacked(s, 5);
  }

  lemma {:induction false} ThreeParts(w: int, h: int, m: int, l: int, lows: int)
    requires lows > 0 && 0 <= l < lows && 0 <= m < 256 && w == h * (256 * lows) + m * lows + l
    ensures w / (256 * lows) == h && w / lows % 256 == m && w % lows == l
  {
    assert w == lows * (256 * h + m) + l;
    Quotient(w, lows, 256 * h + m, l);
    Quotient(256 * h + m, 256, h, m);
    assert m * lows + l < 256 * lows by {
      assert m * lows <= 255 * lows;
    }
    Quotient(w, 256 * lows, h, m * lows + l);
  }

  /** Taking the fields apart and laying them out again gives back the nine bytes. */
  lemma {:induction false} UnpackedThenBytes(s: seq<Byte>)
    requires |s| == 9 && s[8] % 64 == 0
    ensures Bytes(Unpacked(s)) == s
  {
    var w := Unpacked(s);
    Quotient(w[0], 8, s[0], s[1] / 32);
    Quotient(w[1], 64, s[1] % 32, s[2] / 4);
    ThreeParts(w[2], s[2] % 4, s[3], s[4] / 128, 2);
    Quotient(w[3], 16, s[4] % 128, s[5] / 16);
    Quotient(w[4], 128, s[5] % 16, s[6] / 2);
    ThreeParts(w[5], s[6] % 2, s[7], s[8] / 64, 4);
  }

  /** And the other way round. */
  lemma {:induction false} BytesThenUnpacked(w: seq<nat>)
    requires IsWords(w)
    ensures Unpacked(Bytes(w)) == w
  {
    var s := Bytes(w);
    Quotient(s[1], 32, w[0] % 8, w[1] / 64);
    Quotient(s[2], 4, w[1] % 64, w[2] / 512);
    Quotient(s[4], 128, w[2] % 2, w[3] / 16);
    Quotient(s[5], 16, w[3] % 16, w[4] / 128);
    Quotient(s[6], 2, w[4] % 128, w[5] / 1024);
    Quotient(s[8], 64, w[5] % 4, 0);
    MiddleByte(w[2]);
    MiddleByte(w[5]);
  }

  // ----- The checksum

  /** The sum of the four two-bit digits of a byte. */
  function Crumbs(b: Byte): nat {
    b / 64 + b / 16 % 4 + b / 4 % 4 + b % 4
  }

  /** The checksum of the first n bytes: the sum of their two-bit digits. */
  function DigitSum(s: seq<Byte>, n: nat): nat
    requires n <= |s|
  {
    if n == 0 then 0 else DigitSum(s, n - 1) + Crumbs(s[n - 1])
  }

  lemma {:induction false} StraddlingCrumbs(a: int, b: int, c: int)
    requires 0 <= a < 256 && 0 <= b < 256 && 0 <= c < 256
    ensures var w := 65536 * a + 256 * b + c;
            && w / 4194304 % 4 == a / 64
            && w / 1048576 % 4 == a / 16 % 4
            && w / 262144 % 4 == a / 4 % 4
            && w / 65536 % 4 == a % 4
  {
    var w := 65536 * a + 256 * b + c;
    var r := 256 * b + c;
    Quotient(w, 65536, a, r);
    Quotient(w, 262144, a / 4, a % 4 * 65536 + r);
    Quotient(w, 1048576, a / 16, a % 16 * 65536 + r);
    Quotient(w, 4194304, a / 64, a % 64 * 65536 + r);
  }

  lemma {:induction false} CrumbPowers()
    ensures Pow2(2) == 4 && Pow2(16) == 65536 && Pow2(18) == 262144 && Pow2(20) == 1048576 && Pow2(22) == 4194304
  {
    assert Pow2(6) == 64;
    assert Pow2(11) == 2048;
    assert Pow2(16) == 65536;
    assert Pow2(20) == 1048576;
  }

  /** The two-bit fields of the j-th byte, whatever the two bytes behind it are. */
  lemma {:induction false} CrumbFields(s: seq<Byte>, j: nat)
    requires j + 2 < |s|
    ensures Extract(s, 8 * j, 2) == s[j] / 64 && Extract(s, 8 * j + 2, 2) == s[j] / 16 % 4
    ensures Extract(s, 8 * j + 4, 2) == s[j] / 4 % 4 && Extract(s, 8 * j + 6, 2) == s[j] % 4
  {
    CrumbPowers();
    StraddlingCrumbs(s[j], s[j + 1], s[j + 2]);
    assert 8 * j / 8 == j && (8 * j + 2) / 8 == j && (8 * j + 4) / 8 == j && (8 * j + 6) / 8 == j;
    assert 8 * j % 8 == 0 && (8 * j + 2) % 8 == 2 && (8 * j + 4) % 8 == 4 && (8 * j + 6) % 8 == 6;
  }

  lemma {:induction false} TopCrumb(s: seq<Byte>, j: nat)
    requires j + 2 < |s|
    ensures Extract(s, 8 * j, 2) == s[j] / 64
  {
    CrumbFields(s, j);
  }

  // ----- Inserting a word

  lemma HalfMultiple(a: nat, p: nat)
    requires p > 0 && a % (2 * p) == 0
    ensures a % 2 == 0 && a / 2 % p == 0
  {
    var q := a / (2 * p);
    assert a == 2 * p * q == 2 * (p * q);
    Quotient(a / 2, p, q, 0);
  }

  /** Or adds when the one operand has zeros where the other has bits. */
  lemma {:induction false} OrDisjoint(a: nat, b: nat, k: nat, n: nat)
    requires k <= n && a % Pow2(k) == 0 && b < Pow2(k) && a < Pow2(n)
    ensures OrBits(a, b, n) == a + b
    decreases n
  {
    if n > 0 {
      if k == 0 {
        OrDisjoint(a / 2, 0, 0, n - 1);
      } else {
        HalfMultiple(a, Pow2(k - 1));
        OrDisjoint(a / 2, b / 2, k - 1, n - 1);
      }
    }
  }

  lemma {:induction false} OrLow(a: Byte, b: Byte, k: nat)
    requires k <= 8 && a % Pow2(k) == 0 && b < Pow2(k)
    ensures a + b < 256 && Or(a, b) == a + b
  {
    assert Pow2(8) == 256;
    OrDisjoint(a, b, k, 8);
  }

  lemma {:induction false} OrZero(b: Byte)
    ensures Or(0, b) == b
  {
    assert Pow2(8) == 256;
    OrDisjoint(0, b, 8, 8);
  }

  /** The words read so far, the missing ones zero. */
  function Padded(w: seq<nat>): seq<nat>
    requires |w| <= 6
  {
    w + seq(6 - |w|, _ => 0)
  }

  ghost predicate Small(w: seq<nat>) {
    forall i :: 0 <= i < |w| ==> w[i] < 2048
  }

  lemma {:induction false} NoWords(w: seq<nat>)
    requires |w| == 0
    ensures IsWords(Padded(w)) && forall i :: 0 <= i < 9 ==> Bytes(Padded(w))[i] == 0
  {
    ZeroLayout(|w|);
    var p := Padded(w);
    assert p[0] == |w| && p[1] == |w| && p[2] == |w| && p[3] == |w| && p[4] == |w| && p[5] == |w|;
  }

  lemma {:induction false} ZeroLayout(z: nat)
    requires z == 0
    ensures forall i :: 0 <= i < 9 ==> Layout(z, z, z, z, z, z)[i] == 0
  {
  }

  lemma {:induction false} ShiftPowers()
    ensures Pow2(0) == 1 && Pow2(1) == 2 && Pow2(2) == 4 && Pow2(3) == 8 && Pow2(4) == 16
    ensures Pow2(5) == 32 && Pow2(6) == 64 && Pow2(7) == 128 && Pow2(8) == 256
  {
    assert Pow2(4) == 16;
    assert Pow2(8) == 256;
  }

  /** Inserting below the zero bits of one byte and into empty bytes behind it is adding. */
  lemma {:induction false} OverlayTwo(s: seq<Byte>, i: nat, y: nat, width: nat, hi: Byte, lo: Byte, k: nat)
    requires i + 2 < |s| && 8 < width <= 16 && y == 256 * hi + lo
    requires k <= 8 && s[i] % Pow2(k) == 0 && hi < Pow2(k) && s[i + 1] == 0
    ensures s[i] + hi < 256
    ensures Overlay(s, i, y, width) == s[i := s[i] + hi][i + 1 := lo]
  {
    Quotient(y, 256, hi, lo);
    Quotient(hi, 256, 0, hi);
    OrLow(s[i], hi, k);
    OrZero(lo);
    assert Or(s[i + 1], lo) == lo;
  }

  lemma {:induction false} OverlayThree(s: seq<Byte>, i: nat, y: nat, width: nat, hi: Byte, mid: Byte, lo: Byte, k: nat)
    requires i + 2 < |s| && width > 16 && y == 65536 * hi + 256 * mid + lo
    requires k <= 8 && s[i] % Pow2(k) == 0 && hi < Pow2(k) && s[i + 1] == 0 && s[i + 2] == 0
    ensures s[i] + hi < 256
    ensures Overlay(s, i, y, width) == s[i := s[i] + hi][i + 1 := mid][i + 2 := lo]
  {
    Quotient(y, 65536, hi, 256 * mid + lo);
    Quotient(y, 256, 256 * hi + mid, lo);
    Quotient(256 * hi + mid, 256, hi, mid);
    Quotient(hi, 256, 0, hi);
    OrLow(s[i], hi, k);
    OrZero(mid);
    OrZero(lo);
    assert Or(s[i + 1], mid) == mid && Or(s[i + 2], lo) == lo;
  }

  lemma {:induction false} InsertFirst(x: nat, z: nat)
    requires x < 2048 && z == 0
    ensures Overlay(Layout(z, z, z, z, z, z), 0, x * 32, 16) == Layout(x, z, z, z, z, z)
  {
    var s := Layout(z, z, z, z, z, z);
    ShiftPowers();
    OverlayTwo(s, 0, x * 32, 16, x / 8, x % 8 * 32, 8);
  }

  lemma {:induction false} InsertSecond(a: nat, x: nat)
    requires a < 2048 && x < 2048
    ensures Overlay(Layout(a, 0, 0, 0, 0, 0), 1, x * 4, 13) == Layout(a, x, 0, 0, 0, 0)
  {
    var s := Layout(a, 0, 0, 0, 0, 0);
    ShiftPowers();
    Quotient(s[1], 32, a % 8, 0);
    OverlayTwo(s, 1, x * 4, 13, x / 64, x % 64 * 4, 5);
  }

  lemma {:induction false} InsertThird(a: nat, b: nat, x: nat)
    requires a < 2048 && b < 2048 && x < 2048
    ensures Overlay(Layout(a, b, 0, 0, 0, 0), 2, x * 128, 18) == Layout(a, b, x, 0, 0, 0)
  {
    var s := Layout(a, b, 0, 0, 0, 0);
    ShiftPowers();
    Quotient(s[2], 4, b % 64, 0);
    MiddleByte(x);
    OverlayThree(s, 2, x * 128, 18, x / 512, x / 2 % 256, x % 2 * 128, 2);
  }

  lemma {:induction false} InsertFourth(a: nat, b: nat, c: nat, x: nat)
    requires a < 2048 && b < 2048 && c < 2048 && x < 2048
    ensures Overlay(Layout(a, b, c, 0, 0, 0), 4, x * 16, 15) == Layout(a, b, c, x, 0, 0)
  {
    var s := Layout(a, b, c, 0, 0, 0);
    ShiftPowers();
    Quotient(s[4], 128, c % 2, 0);
    OverlayTwo(s, 4, x * 16, 15, x / 16, x % 16 * 16, 7);
  }

  lemma {:induction false} InsertFifth(a: nat, b: nat, c: nat, d: nat, x: nat)
    requires a < 2048 && b < 2048 && c < 2048 && d < 2048 && x < 2048
    ensures Overlay(Layout(a, b, c, d, 0, 0), 5, x * 2, 12) == Layout(a, b, c, d, x, 0)
  {
    var s := Layout(a, b, c, d, 0, 0);
    ShiftPowers();
    Quotient(s[5], 16, d % 16, 0);
    OverlayTwo(s, 5, x * 2, 12, x / 128, x % 128 * 2, 4);
  }

  lemma {:induction false} InsertSixth(a: nat, b: nat, c: nat, d: nat, e: nat, x: nat)
    requires a < 2048 && b < 2048 && c < 2048 && d < 2048 && e < 2048 && x < 2048
    ensures Overlay(Layout(a, b, c, d, e, 0), 6, x * 64, 17) == Layout(a, b, c, d, e, x)
  {
    var s := Layout(a, b, c, d, e, 0);
    ShiftPowers();
    Quotient(s[6], 2, e % 128, 0);
    MiddleByte(x);
    OverlayThree(s, 6, x * 64, 17, x / 1024, x / 4 % 256, x % 4 * 64, 1);
  }

  lemma {:induction false} ShiftOfWord(k: nat)
    requires k < 6
    ensures 11 * k / 8 == if k < 3 then k else k + 1
    ensures (8 - (11 * k + 11) % 8) % 8 ==
            if k == 0 then 5 else if k == 1 then 2 else if k == 2 then 7
            else if k == 3 then 4 else if k == 4 then 1 else 6
  {
  }

  /** Where insert puts the k-th word, and how far it shifts it. */
  lemma {:induction false} InsertShifts(s: seq<Byte>, x: nat, k: nat)
    requires |s| == 9 && k < 6
    ensures Inserted(s, x, 11 * k, 11) ==
            if k == 0 then Overlay(s, 0, x * 32, 16)
            else if k == 1 then Overlay(s, 1, x * 4, 13)
            else if k == 2 then Overlay(s, 2, x * 128, 18)
            else if k == 3 then Overlay(s, 4, x * 16, 15)
            else if k == 4 then Overlay(s, 5, x * 2, 12)
            else Overlay(s, 6, x * 64, 17)
  {
    ShiftPowers();
    ShiftOfWord(k);
  }

  /** Inserting the next word completes the layout of one word more. */
  lemma {:induction false} InsertNext(w: seq<nat>, x: nat)
    requires |w| < 6 && Small(w) && x < 2048
    ensures IsWords(Padded(w)) && IsWords(Padded(w + [x]))
    ensures Inserted(Bytes(Padded(w)), x, 11 * |w|, 11) == Bytes(Padded(w + [x]))
  {
    InsertShifts(Bytes(Padded(w)), x, |w|);
    if |w| == 0 {
      InsertFirst(x, |w|);
    } else if |w| == 1 {
      InsertSecond(w[0], x);
    } else if |w| == 2 {
      InsertThird(w[0], w[1], x);
    } else if |w| == 3 {
      InsertFourth(w[0], w[1], w[2], x);
    } else if |w| == 4 {
      InsertFifth(w[0], w[1], w[2], w[3], x);
    } else {
      InsertSixth(w[0], w[1], w[2], w[3], w[4], x);
    }
  }
}
