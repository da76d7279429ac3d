/** Octets, fixed-width unsigned integers, network byte order and bitwise or. */
module Bytes {

  type byte = x: int | 0 <= x < 0x100
  type u16 = x: int | 0 <= x < 0x1_0000
  type u32 = x: int | 0 <= x < 0x1_0000_0000

  /** Unsigned 32-bit wrap-around. */
  function Wrap32(x: int): u32 {
    x % 0x1_0000_0000
  }

  /** The two's complement reading of a 32-bit word, as in a cast from uint32_t to int. */
  function Signed32(x: u32): int {
    if x < 0x8000_0000 then x else x - 0x1_0000_0000
  }

  function Pow2(k: nat): (r: nat)
    ensures r > 0
  {
    if k == 0 then 1 else 2 * Pow2(k - 1)
  }

  /** One more octet. */
  lemma Pow2Byte(k: nat)
    ensures Pow2(k + 8) == 0x100 * Pow2(k)
  {
    assert Pow2(k + 4) == 16 * Pow2(k) by { assert Pow2(k + 2) == 4 * Pow2(k); }
    assert Pow2(k + 6) == 4 * Pow2(k + 4);
  }

  /** Bitwise or, bit by bit from the least significant one. */
  function Or(x: nat, y: nat): nat
    decreases x + y
  {
    if x == 0 then y
    else if y == 0 then x
    else 2 * Or(x / 2, y / 2) + (if x % 2 == 1 || y % 2 == 1 then 1 else 0)
  }

  lemma OrDouble(x: nat, y: nat)
    ensures Or(2 * x, y) == 2 * Or(x, y / 2) + y % 2
  {}

  /** The low bits of y pass below x shifted left by the power of two p. */
  ghost predicate OrSplits(x: nat, y: nat, p: nat)
    requires p > 0
  {
    Or(x * p, y) == Or(x, y / p) * p + y % p
  }

  lemma OrShiftStep(x: nat, y: nat, h: nat)
    requires h > 0 && OrSplits(x, y / 2, h)
    ensures OrSplits(x, y, 2 * h)
  {
    var z := Or(x, y / 2 / h);
    HalvePower(y, h);
    OrDouble(x * h, y);
    DoubleProduct(x, h);
    DoubleProduct(z, h);
  }

  lemma OrUnshifted(x: nat, y: nat)
    ensures OrSplits(x, y, 1)
  {}

  /** Shifting one operand left by k leaves the low k bits to the other. */
  lemma {:induction false} OrShifted(x: nat, y: nat, k: nat)
    ensures OrSplits(x, y, Pow2(k))
  {
    if k == 0 {
      OrUnshifted(x, y);
    } else {
      OrShifted(x, y / 2, k - 1);
      OrShiftStep(x, y, Pow2(k - 1));
    }
  }

  lemma DoubleProduct(x: int, y: int)
    ensures x * (2 * y) == 2 * (x * y)
  {}

  lemma HalvePower(y: nat, h: nat)
    requires h > 0
    ensures y / (2 * h) == y / 2 / h
    ensures y % (2 * h) == 2 * (y / 2 % h) + y % 2
  {
    var q := y / 2 / h;
    var r := y / 2 % h;
    assert y / 2 == q * h + r;
    assert y == q * (2 * h) + (2 * r + y % 2);
    DivModUnique(y, 2 * h, q, 2 * r + y % 2);
  }

  /** Euclidean quotient and remainder are determined by the division equation. */
  lemma DivModUnique(x: int, m: nat, q: int, r: int)
    requires m > 0 && x == q * m + r && 0 <= r < m
    ensures x / m == q && x % m == r
  {
    var d := x / m - q;
    assert d * m == r - x % m;
    ProductAtLeast(d, m);
  }

  lemma ProductAtLeast(d: int, m: nat)
    ensures d > 0 ==> d * m >= m
    ensures d < 0 ==> d * m + m <= 0
  {}

  /** Operands without a common bit add up. */
  lemma OrDisjoint(x: nat, y: nat, k: nat)
    requires y < Pow2(k)
    ensures Or(x * Pow2(k), y) == x * Pow2(k) + y
  {
    OrShifted(x, y, k);
    DivModUnique(y, Pow2(k), 0, y);
  }

  // Network byte order

  function Be16(x: u16): (b: seq<byte>)
    ensures |b| == 2
  {
    [x / 0x100, x % 0x100]
  }

  function Be32(x: u32): (b: seq<byte>)
    ensures |b| == 4
  {
    Be16(x / 0x1_0000) + Be16(x % 0x1_0000)
  }

  function GetBe16(b: seq<byte>, i: nat): u16
    requires i + 2 <= |b|
  {
    var (b0: int, b1: int) := (b[i], b[i + 1]);
    b0 * 0x100 + b1
  }

  function GetBe32(b: seq<byte>, i: nat): u32
    requires i + 4 <= |b|
  {
    var (high: int, low: int) := (GetBe16(b, i), GetBe16(b, i + 2));
    high * 0x1_0000 + low
  }

  lemma Be16RoundTrip(x: u16, b: seq<byte>, i: nat)
    requires i + 2 <= |b| && b[i..i + 2] == Be16(x)
    ensures GetBe16(b, i) == x
  {
    assert b[i] == b[i..i + 2][0] && b[i + 1] == b[i..i + 2][1];
  }

  lemma Be32RoundTrip(x: u32, b: seq<byte>, i: nat)
    requires i + 4 <= |b| && b[i..i + 4] == Be32(x)
    ensures GetBe32(b, i) == x
  {
    var w := Be32(x);
    assert b[i..i + 2] == b[i..i + 4][..2] == w[..2] == Be16(x / 0x1_0000);
    assert b[i + 2..i + 4] == b[i..i + 4][2..] == w[2..] == Be16(x % 0x1_0000);
    Be16RoundTrip(x / 0x1_0000, b, i);
    Be16RoundTrip(x % 0x1_0000, b, i + 2);
  }

  // Concatenation

  function Flatten(pieces: seq<seq<byte>>): seq<byte> {
    if pieces == [] then [] else Flatten(pieces[..|pieces| - 1]) + pieces[|pieces| - 1]
  }

  lemma Associate(a: seq<byte>, b: seq<byte>, c: seq<byte>)
    ensures a + b + c == a + (b + c)
  {}

  lemma FlattenSnoc(pieces: seq<seq<byte>>, p: seq<byte>)
    ensures Flatten(pieces + [p]) == Flatten(pieces) + p
  {
    assert (pieces + [p])[..|pieces|] == pieces;
  }

  lemma FlattenOne(p: seq<byte>)
    ensures Flatten([p]) == p
  {
    FlattenSnoc([], p);
    assert [] + [p] == [p];
  }

  lemma {:induction false} FlattenConcat(a: seq<seq<byte>>, b: seq<seq<byte>>)
    ensures Flatten(a + b) == Flatten(a) + Flatten(b)
  {
    if b == [] {
      assert a + b == a;
    } else {
      var (init, last) := (b[..|b| - 1], b[|b| - 1]);
      FlattenConcat(a, init);
      FlattenSnoc(a + init, last);
      assert a + b == (a + init) + [last];
      Associate(Flatten(a), Flatten(init), last);
    }
  }

  /** The octets w stand at p. */
  predicate At(b: seq<byte>, p: nat, w: seq<byte>) {
    p + |w| <= |b| && b[p..p + |w|] == w
  }

  lemma AtSplit(b: seq<byte>, p: nat, v: seq<byte>, w: seq<byte>)
    requires At(b, p, v + w)
    ensures At(b, p, v) && At(b, p + |v|, w)
  {
    var x := b[p..p + |v + w|];
    assert b[p..p + |v|] == x[..|v|] == v;
    assert b[p + |v|..p + |v| + |w|] == x[|v|..] == w;
  }

  lemma FlattenSplit(b: seq<byte>, p: nat, pieces: seq<seq<byte>>)
    requires pieces != [] && At(b, p, Flatten(pieces))
    ensures At(b, p, pieces[0]) && At(b, p + |pieces[0]|, Flatten(pieces[1..]))
    ensures |Flatten(pieces)| == |pieces[0]| + |Flatten(pieces[1..])|
  {
    assert pieces == [pieces[0]] + pieces[1..];
    FlattenConcat([pieces[0]], pieces[1..]);
    FlattenOne(pieces[0]);
    AtSplit(b, p, pieces[0], Flatten(pieces[1..]));
  }
}
