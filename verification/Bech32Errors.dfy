/**
 Which errors the Bech32 checksum detects.

 The generator has three consecutive powers of a primitive element of the field
 of 1024 elements among its roots, so the checksum is a BCH code: up to three
 changed values within 1023 places are always noticed, wherever they are.  An
 element of the field is written as a polynomial in the primitive element, one
 bit a coefficient.
 */
module Bech32Errors {
  import opened Bech32
  import opened Numbers

  // ---------------------------------------------------- the field of 1024 elements

  ghost predicate Element(x: bv32) {
    x < 1024
  }

  // Multiplication by the primitive element, whose tenth power is 0x225.
  function Turn(x: bv32): bv32 {
    Xor(Doubled(x), Tap(Has(x, 512), 0x225))
  }

  function Doubled(x: bv32): bv32 {
    (x & 511) << 1
  }

  predicate Has(x: bv32, bit: bv32) {
    x & bit != 0
  }

  // Multiplication by its n-th power.
  ghost function Turned(n: nat, x: bv32): bv32 {
    if n == 0 then x else Turn(Turned(n - 1, x))
  }

  lemma TurnLinear(x: bv32, y: bv32)
    ensures Turn(Xor(x, y)) == Xor(Turn(x), Turn(y))
  {
    hide Xor, Tap, Has, Doubled;
    TurnParts(x, y);
    TapLinear(Has(x, 512), Has(y, 512), 0x225);
    XorCross(Doubled(x), Doubled(y), Tap(Has(x, 512), 0x225), Tap(Has(y, 512), 0x225));
  }

  lemma TurnParts(x: bv32, y: bv32)
    ensures Doubled(Xor(x, y)) == Xor(Doubled(x), Doubled(y)) && Has(Xor(x, y), 512) == (Has(x, 512) != Has(y, 512))
  {
  }

  lemma TurnElement(x: bv32)
    ensures Element(Turn(x))
  {
  }

  lemma TurnKernel(x: bv32)
    requires Element(x) && Turn(x) == 0
    ensures x == 0
  {
  }

  lemma XorElement(x: bv32, y: bv32)
    requires Element(x) && Element(y)
    ensures Element(Xor(x, y))
  {
  }

  lemma {:induction false} TurnedLinear(n: nat, x: bv32, y: bv32)
    ensures Turned(n, Xor(x, y)) == Xor(Turned(n, x), Turned(n, y))
  {
    hide Turn, Xor;
    if n > 0 {
      TurnedLinear(n - 1, x, y);
      TurnLinear(Turned(n - 1, x), Turned(n - 1, y));
    }
  }

  lemma TurnedZero(n: nat)
    ensures Turned(n, 0) == 0
  {
    hide Turned, Xor;
    TurnedLinear(n, 0, 0);
    XorZero(0);
    XorZero(Turned(n, 0));
  }

  lemma {:induction false} TurnedElement(n: nat, x: bv32)
    requires Element(x)
    ensures Element(Turned(n, x))
  {
    hide Turn, Element;
    if n > 0 {
      TurnElement(Turned(n - 1, x));
    }
  }

  lemma {:induction false} TurnedAdd(m: nat, n: nat, x: bv32)
    ensures Turned(m + n, x) == Turned(m, Turned(n, x))
  {
    hide Turn;
    if m > 0 {
      TurnedAdd(m - 1, n, x);
    }
  }

  lemma TurnedCommutes(m: nat, n: nat, x: bv32)
    ensures Turned(m, Turned(n, x)) == Turned(n, Turned(m, x))
  {
    hide Turned;
    TurnedAdd(m, n, x);
    TurnedAdd(n, m, x);
    assert m + n == n + m;
  }

  lemma {:induction false} TurnedKernel(n: nat, x: bv32)
    requires Element(x) && Turned(n, x) == 0
    ensures x == 0
  {
    hide Turn, Element;
    if n > 0 {
      TurnedElement(n - 1, x);
      TurnKernel(Turned(n - 1, x));
      TurnedKernel(n - 1, x);
    }
  }

  lemma TurnedInjective(n: nat, x: bv32, y: bv32)
    requires Element(x) && Element(y) && Turned(n, x) == Turned(n, y)
    ensures x == y
  {
    hide Turned, Xor, Element;
    TurnedLinear(n, x, y);
    XorCancels(Turned(n, x), Turned(n, y));
    XorElement(x, y);
    TurnedKernel(n, Xor(x, y));
    XorCancels(x, y);
  }

  // ------------------------------------------------------------- multiplication

  function Digit(set_: bool, k: bv32, rest: bv32): bv32 {
    Xor(Tap(set_, k), Turn(rest))
  }

  // The digits of x from the fifth on, and all of them, against k.
  function TimesHigh(x: bv32, k: bv32): bv32 {
    Digit(Has(x, 32), k, Digit(Has(x, 64), k, Digit(Has(x, 128), k, Digit(Has(x, 256), k, Digit(Has(x, 512), k, 0)))))
  }

  function Times(x: bv32, k: bv32): bv32 {
    Digit(Has(x, 1), k, Digit(Has(x, 2), k, Digit(Has(x, 4), k, Digit(Has(x, 8), k, Digit(Has(x, 16), k, TimesHigh(x, k))))))
  }

  lemma TimesOne(x: bv32)
    requires Element(x)
    ensures Times(x, 1) == x
  {
    TimesHighOne(x);
    hide TimesHigh;
  }

  lemma TimesHighOne(x: bv32)
    requires Element(x)
    ensures TimesHigh(x, 1) == x >> 5
  {
  }

  lemma TurnedTap(n: nat, set_: bool, k: bv32)
    ensures Turned(n, Tap(set_, k)) == Tap(set_, Turned(n, k))
  {
    hide Turned;
    TurnedZero(n);
  }

  lemma TurnedDigit(n: nat, set_: bool, k: bv32, rest: bv32)
    ensures Turned(n, Digit(set_, k, rest)) == Digit(set_, Turned(n, k), Turned(n, rest))
  {
    TurnedCommutes(n, 1, rest);
    assert forall x :: Turned(1, x) == Turn(Turned(0, x)) == Turn(x);
    hide Turned, Turn, Tap, Xor;
    TurnedLinear(n, Tap(set_, k), Turn(rest));
    TurnedTap(n, set_, k);
  }

  lemma TurnedTimesHigh(n: nat, x: bv32, k: bv32)
    ensures Turned(n, TimesHigh(x, k)) == TimesHigh(x, Turned(n, k))
  {
    hide Turned, Digit, Has;
    var d9 := Digit(Has(x, 512), k, 0);
    var d8 := Digit(Has(x, 256), k, d9);
    var d7 := Digit(Has(x, 128), k, d8);
    var d6 := Digit(Has(x, 64), k, d7);
    TurnedZero(n);
    TurnedDigit(n, Has(x, 512), k, 0);
    TurnedDigit(n, Has(x, 256), k, d9);
    TurnedDigit(n, Has(x, 128), k, d8);
    TurnedDigit(n, Has(x, 64), k, d7);
    TurnedDigit(n, Has(x, 32), k, d6);
  }

  lemma TurnedTimes(n: nat, x: bv32, k: bv32)
    ensures Turned(n, Times(x, k)) == Times(x, Turned(n, k))
  {
    hide Turned, Digit, Has, TimesHigh;
    var d5 := TimesHigh(x, k);
    var d4 := Digit(Has(x, 16), k, d5);
    var d3 := Digit(Has(x, 8), k, d4);
    var d2 := Digit(Has(x, 4), k, d3);
    var d1 := Digit(Has(x, 2), k, d2);
    TurnedTimesHigh(n, x, k);
    TurnedDigit(n, Has(x, 16), k, d5);
    TurnedDigit(n, Has(x, 8), k, d4);
    TurnedDigit(n, Has(x, 4), k, d3);
    TurnedDigit(n, Has(x, 2), k, d2);
    TurnedDigit(n, Has(x, 1), k, d1);
  }

  lemma DigitLinear(set_: bool, k: bv32, l: bv32, rest: bv32, tail: bv32)
    ensures Digit(set_, Xor(k, l), Xor(rest, tail)) == Xor(Digit(set_, k, rest), Digit(set_, l, tail))
  {
    hide Turn, Xor;
    XorZero(0);
    TurnLinear(rest, tail);
    XorCross(Tap(set_, k), Tap(set_, l), Turn(rest), Turn(tail));
  }

  lemma TimesHighLinear(x: bv32, k: bv32, l: bv32)
    ensures TimesHigh(x, Xor(k, l)) == Xor(TimesHigh(x, k), TimesHigh(x, l))
  {
    hide Digit, Has, Xor;
    var k9, l9 := Digit(Has(x, 512), k, 0), Digit(Has(x, 512), l, 0);
    var k8, l8 := Digit(Has(x, 256), k, k9), Digit(Has(x, 256), l, l9);
    var k7, l7 := Digit(Has(x, 128), k, k8), Digit(Has(x, 128), l, l8);
    var k6, l6 := Digit(Has(x, 64), k, k7), Digit(Has(x, 64), l, l7);
    XorZero(0);
    DigitLinear(Has(x, 512), k, l, 0, 0);
    DigitLinear(Has(x, 256), k, l, k9, l9);
    DigitLinear(Has(x, 128), k, l, k8, l8);
    DigitLinear(Has(x, 64), k, l, k7, l7);
    DigitLinear(Has(x, 32), k, l, k6, l6);
  }

  lemma TimesLinear(x: bv32, k: bv32, l: bv32)
    ensures Times(x, Xor(k, l)) == Xor(Times(x, k), Times(x, l))
  {
    hide Digit, Has, Xor, TimesHigh;
    var k5, l5 := TimesHigh(x, k), TimesHigh(x, l);
    var k4, l4 := Digit(Has(x, 16), k, k5), Digit(Has(x, 16), l, l5);
    var k3, l3 := Digit(Has(x, 8), k, k4), Digit(Has(x, 8), l, l4);
    var k2, l2 := Digit(Has(x, 4), k, k3), Digit(Has(x, 4), l, l3);
    var k1, l1 := Digit(Has(x, 2), k, k2), Digit(Has(x, 2), l, l2);
    TimesHighLinear(x, k, l);
    DigitLinear(Has(x, 16), k, l, k5, l5);
    DigitLinear(Has(x, 8), k, l, k4, l4);
    DigitLinear(Has(x, 4), k, l, k3, l3);
    DigitLinear(Has(x, 2), k, l, k2, l2);
    DigitLinear(Has(x, 1), k, l, k1, l1);
  }

  // k is the n-th power of the primitive element.
  ghost predicate IsPower(n: nat, k: bv32) {
    Turned(n, 1) == k
  }

  // Multiplication by a power is multiplication.
  lemma TurnedIsTimes(n: nat, k: bv32, x: bv32)
    requires Element(x) && IsPower(n, k)
    ensures Turned(n, x) == Times(x, k)
  {
    hide Turned, Times;
    TimesOne(x);
    TurnedTimes(n, x, 1);
  }

  lemma PowerSum(m: nat, n: nat, k: bv32, l: bv32)
    requires IsPower(m, k) && IsPower(n, l)
    ensures IsPower(m + n, Times(k, l))
  {
    hide Turned, Times, Element;
    TurnedAdd(n, m, 1);
    OneIsElement();
    TurnedElement(m, 1);
    TurnedIsTimes(n, l, k);
  }

  lemma OneIsElement()
    ensures Element(1)
  {
  }

  lemma SmallPowersAre()
    ensures IsPower(1, 2) && IsPower(2, 4) && IsPower(5, 32) && IsPower(8, 256)
  {
    FirstTurns();
    hide Turn;
    assert Turned(1, 1) == 2;
    assert Turned(2, 1) == 4;
    assert Turned(3, 1) == 8;
    assert Turned(5, 1) == 32;
    assert Turned(7, 1) == 128;
  }

  lemma FirstTurns()
    ensures Turn(1) == 2 && Turn(2) == 4 && Turn(4) == 8 && Turn(8) == 16
    ensures Turn(16) == 32 && Turn(32) == 64 && Turn(64) == 128 && Turn(128) == 256
  {
  }

  lemma ProductsTo64()
    ensures Times(0x100, 0x100) == 0x29
    ensures Times(0x29, 0x29) == 0x264
    ensures Times(0x264, 0x264) == 0x6a
  {
  }

  lemma ProductsTo512()
    ensures Times(0x6a, 0x6a) == 0x9a
    ensures Times(0x9a, 0x9a) == 0xc7
    ensures Times(0xc7, 0xc7) == 0x36d
  {
  }

  lemma ProductsTo93()
    ensures Times(0x264, 0x2) == 0x2ed
    ensures Times(0x6a, 0x29) == 0x230
    ensures Times(0x230, 0x100) == 0x17a
    ensures Times(0x17a, 0x20) == 0xd9
  {
  }

  lemma ProductsTo99()
    ensures Times(0xd9, 0x20) == 0x3b4
    ensures Times(0x3b4, 0x2) == 0x14d
  {
  }

  lemma ProductsTo341()
    ensures Times(0xc7, 0x6a) == 0x10f
    ensures Times(0x10f, 0x29) == 0x12b
    ensures Times(0x12b, 0x20) == 0x96
  {
  }

  lemma ProductsTo1023()
    ensures Times(0x96, 0x96) == 0x97
    ensures Times(0x97, 0x96) == 0x1
    ensures Times(0x97, 0x100) == 0xd8
  {
  }

  lemma ProductsTo627()
    ensures Times(0x36d, 0x230) == 0x280
    ensures Times(0x280, 0x2ed) == 0xbb
    ensures Times(0xbb, 0x4) == 0x2ec
  {
  }

  lemma ProductsTo992()
    ensures Times(0x36d, 0xc7) == 0x19f
    ensures Times(0x19f, 0x9a) == 0x3a7
    ensures Times(0x3a7, 0x6a) == 0x275
  {
  }

  lemma ProductsTo997()
    ensures Times(0x275, 0x264) == 0x1b8
    ensures Times(0x1b8, 0x20) == 0xd
  {
  }

  lemma PowersTo512()
    requires IsPower(8, 0x100)
    ensures IsPower(16, 0x29) && IsPower(32, 0x264) && IsPower(64, 0x6a) && IsPower(128, 0x9a) && IsPower(256, 0xc7) && IsPower(512, 0x36d)
  {
    hide IsPower, Times;
    ProductsTo64();
    PowerSum(8, 8, 0x100, 0x100);
    PowerSum(16, 16, 0x29, 0x29);
    PowerSum(32, 32, 0x264, 0x264);
    ProductsTo512();
    PowerSum(64, 64, 0x6a, 0x6a);
    PowerSum(128, 128, 0x9a, 0x9a);
    PowerSum(256, 256, 0xc7, 0xc7);
  }

  lemma PowersTo99()
    requires IsPower(1, 0x2) && IsPower(5, 0x20) && IsPower(8, 0x100) && IsPower(16, 0x29) && IsPower(32, 0x264) && IsPower(64, 0x6a)
    ensures IsPower(33, 0x2ed) && IsPower(80, 0x230) && IsPower(93, 0xd9) && IsPower(99, 0x14d)
  {
    hide IsPower, Times;
    ProductsTo93();
    PowerSum(32, 1, 0x264, 0x2);
    PowerSum(64, 16, 0x6a, 0x29);
    PowerSum(80, 8, 0x230, 0x100);
    PowerSum(88, 5, 0x17a, 0x20);
    ProductsTo99();
    PowerSum(93, 5, 0xd9, 0x20);
    PowerSum(98, 1, 0x3b4, 0x2);
  }

  lemma PowersTo1023()
    requires IsPower(5, 0x20) && IsPower(8, 0x100) && IsPower(16, 0x29) && IsPower(64, 0x6a) && IsPower(256, 0xc7)
    ensures IsPower(341, 0x96) && IsPower(682, 0x97) && IsPower(690, 0xd8) && IsPower(1023, 0x1)
  {
    hide IsPower, Times;
    ProductsTo341();
    PowerSum(256, 64, 0xc7, 0x6a);
    PowerSum(320, 16, 0x10f, 0x29);
    PowerSum(336, 5, 0x12b, 0x20);
    ProductsTo1023();
    PowerSum(341, 341, 0x96, 0x96);
    PowerSum(682, 341, 0x97, 0x96);
    PowerSum(682, 8, 0x97, 0x100);
  }

  lemma PowersTo627()
    requires IsPower(2, 0x4) && IsPower(33, 0x2ed) && IsPower(80, 0x230) && IsPower(512, 0x36d)
    ensures IsPower(627, 0x2ec)
  {
    hide IsPower, Times;
    ProductsTo627();
    PowerSum(512, 80, 0x36d, 0x230);
    PowerSum(592, 33, 0x280, 0x2ed);
    PowerSum(625, 2, 0xbb, 0x4);
  }

  lemma PowersTo997()
    requires IsPower(5, 0x20) && IsPower(32, 0x264) && IsPower(64, 0x6a) && IsPower(128, 0x9a) && IsPower(256, 0xc7) && IsPower(512, 0x36d)
    ensures IsPower(997, 0xd)
  {
    hide IsPower, Times;
    ProductsTo992();
    PowerSum(512, 256, 0x36d, 0xc7);
    PowerSum(768, 128, 0x19f, 0x9a);
    PowerSum(896, 64, 0x3a7, 0x6a);
    ProductsTo997();
    PowerSum(960, 32, 0x275, 0x264);
    PowerSum(992, 5, 0x1b8, 0x20);
  }

  lemma PowersAre()
    ensures IsPower(33, 0x2ed) && IsPower(93, 0xd9) && IsPower(341, 0x96) && IsPower(1023, 1) && IsPower(99, 0x14d)
    ensures IsPower(627, 0x2ec) && IsPower(690, 0xd8) && IsPower(682, 0x97) && IsPower(997, 0xd)
  {
    hide IsPower;
    SmallPowersAre();
    PowersTo512();
    PowersTo99();
    PowersTo1023();
    PowersTo627();
    PowersTo997();
  }

  // ------------------------------------------------------------- the period

  ghost predicate Fixes(n: nat, x: bv32) {
    Turned(n, x) == x
  }

  lemma FullTurn(x: bv32)
    requires Element(x)
    ensures Fixes(1023, x)
  {
    hide Turned, Times, Element, IsPower;
    PowersAre();
    TurnedIsTimes(1023, 1, x);
    TimesOne(x);
  }

  // These powers plus one are powers themselves, so they fix nothing but zero.
  lemma PowersPlusOne()
    ensures Xor(0x2ed, 1) == 0x2ec && Xor(0xd9, 1) == 0xd8 && Xor(0x96, 1) == 0x97
  {
  }

  lemma NoFixedPoint(n: nat, m: nat, k: bv32, x: bv32)
    requires Element(x) && Fixes(n, x) && IsPower(n, k) && IsPower(m, Xor(k, 1))
    ensures x == 0
  {
    hide Turned, Times, Element, Xor, IsPower;
    TurnedIsTimes(n, k, x);
    TimesOne(x);
    TurnedIsTimes(m, Xor(k, 1), x);
    TimesLinear(x, k, 1);
    XorZero(x);
    TurnedKernel(m, x);
  }

  lemma FixesDifference(a: nat, b: nat, x: bv32)
    requires b <= a && Fixes(a, x) && Fixes(b, x)
    ensures Fixes(a - b, x)
  {
    hide Turned;
    TurnedAdd(a - b, b, x);
  }

  lemma {:induction false} FixesMultiple(k: nat, g: nat, x: bv32)
    requires Fixes(g, x)
    ensures Fixes(k * g, x)
  {
    if k > 0 {
      FixesMultiple(k - 1, g, x);
      assert k * g == g + (k - 1) * g;
      TurnedAdd(g, (k - 1) * g, x);
    }
  }

  // The greatest common divisor, by subtraction.
  lemma {:induction false} FixesDivisor(a: nat, b: nat, x: bv32) returns (g: nat, p: nat, q: nat)
    requires a > 0 && b > 0 && Fixes(a, x) && Fixes(b, x)
    ensures g > 0 && Fixes(g, x) && a == p * g && b == q * g
    decreases a + b
  {
    hide Fixes;
    if a == b {
      g, p, q := a, 1, 1;
    } else if a < b {
      FixesDifference(b, a, x);
      g, p, q := FixesDivisor(a, b - a, x);
      SumOfMultiples(p, q, g);
      q := p + q;
    } else {
      FixesDifference(a, b, x);
      g, p, q := FixesDivisor(a - b, b, x);
      SumOfMultiples(p, q, g);
      p := p + q;
    }
  }

  lemma SumOfMultiples(p: nat, q: nat, g: nat)
    ensures p * g + q * g == (p + q) * g
  {
  }

  // A proper divisor of 1023 divides 33, 93 or 341.
  lemma DivisorsOf1023(g: nat, q: nat) returns (k: nat)
    requires q * g == 1023 && q > 1
    ensures k * g == 33 || k * g == 93 || k * g == 341
  {
    if g <= 31 {
      k := SmallDivisor(g, q);
    } else {
      if q >= 32 {
        ProductMonotone(q, 32, g);
      }
      k := SmallCodivisor(g, q);
    }
  }

  lemma OnlyDivisors(g: nat)
    requires 0 < g <= 31 && 1023 % g == 0
    ensures g == 1 || g == 3 || g == 11 || g == 31
  {
  }

  lemma SmallDivisor(g: nat, q: nat) returns (k: nat)
    requires q * g == 1023 && g <= 31
    ensures k * g == 33 || k * g == 93
  {
    DivisionUnique(1023, g, q, 0);
    OnlyDivisors(g);
    k := if g == 1 then 33 else if g == 3 then 11 else 3;
  }

  lemma SmallCodivisor(g: nat, q: nat) returns (k: nat)
    requires q * g == 1023 && 1 < q <= 31
    ensures k * g == 33 || k * g == 93 || k * g == 341
  {
    DivisionUnique(1023, q, g, 0);
    OnlyDivisors(q);
    k := 1;
  }

  // No smaller power fixes anything but zero.
  lemma NoShorterTurn(d: nat, x: bv32)
    requires 0 < d < 1023 && Element(x) && Fixes(d, x)
    ensures x == 0
  {
    hide Turned, Times, Element, IsPower;
    FullTurn(x);
    var g, p, q := FixesDivisor(d, 1023, x);
    if q <= 1 {
      ProductMonotone(g, 1, p);
    }
    var k := DivisorsOf1023(g, q);
    FixesMultiple(k, g, x);
    FixesNothing(k * g, x);
  }

  lemma FixesNothing(n: nat, x: bv32)
    requires (n == 33 || n == 93 || n == 341) && Element(x) && Fixes(n, x)
    ensures x == 0
  {
    hide Fixes, Element, IsPower;
    PowersAre();
    PowersPlusOne();
    if n == 33 {
      NoFixedPoint(n, 627, 0x2ed, x);
    } else if n == 93 {
      NoFixedPoint(n, 690, 0xd9, x);
    } else {
      NoFixedPoint(n, 682, 0x96, x);
    }
  }

  lemma TurnsDiffer(a: nat, b: nat, x: bv32)
    requires a != b && a < b + 1023 && b < a + 1023 && Element(x) && Turned(a, x) == Turned(b, x)
    ensures x == 0
  {
    hide Turned, Element;
    var m, d := if a < b then a else b, if a < b then b - a else a - b;
    TurnedAdd(m, d, x);
    TurnedElement(d, x);
    TurnedInjective(m, x, Turned(d, x));
    NoShorterTurn(d, x);
  }

  // ------------------------------------------------------------- syndromes

  // The values of five bits as elements: the subfield of 32 elements.
  function Embed(v: bv8): bv32 {
    Mixed(v, 1, 0x14d, 0x283, 0x267, 0x122)
  }

  function Mixed(v: bv8, a: bv32, b: bv32, c: bv32, d: bv32, e: bv32): bv32 {
    Xor(Xor(Xor(Xor(Tap(Bit(v, 1), a), Tap(Bit(v, 2), b)), Tap(Bit(v, 4), c)), Tap(Bit(v, 8), d)), Tap(Bit(v, 16), e))
  }

  lemma EmbedLinear(v: bv8, w: bv8)
    ensures Embed(Xor8(v, w)) == Xor(Embed(v), Embed(w))
  {
    hide Tap, Xor, Bit;
    BitLinear(v, w);
    TapLinear(Bit(v, 1), Bit(w, 1), 1);
    TapLinear(Bit(v, 2), Bit(w, 2), 0x14d);
    TapLinear(Bit(v, 4), Bit(w, 4), 0x283);
    TapLinear(Bit(v, 8), Bit(w, 8), 0x267);
    TapLinear(Bit(v, 16), Bit(w, 16), 0x122);
    var v1, v2, v3 := Tap(Bit(v, 1), 1), Tap(Bit(v, 2), 0x14d), Tap(Bit(v, 4), 0x283);
    var v4, v5 := Tap(Bit(v, 8), 0x267), Tap(Bit(v, 16), 0x122);
    var w1, w2, w3 := Tap(Bit(w, 1), 1), Tap(Bit(w, 2), 0x14d), Tap(Bit(w, 4), 0x283);
    var w4, w5 := Tap(Bit(w, 8), 0x267), Tap(Bit(w, 16), 0x122);
    XorCross(v1, w1, v2, w2);
    XorCross(Xor(v1, v2), Xor(w1, w2), v3, w3);
    XorCross(Xor(Xor(v1, v2), v3), Xor(Xor(w1, w2), w3), v4, w4);
    XorCross(Xor(Xor(Xor(v1, v2), v3), v4), Xor(Xor(Xor(w1, w2), w3), w4), v5, w5);
  }

  lemma EmbedElement(v: bv8)
    ensures Element(Embed(v))
  {
  }

  lemma EmbedKernel(v: bv8)
    requires v < 32 && Embed(v) == 0
    ensures v == 0
  {
  }

  ghost function Zeroes(n: nat): Data {
    seq(n, _ => 0)
  }

  // The values as a polynomial, at the r-th power, from s.
  ghost function Syndrome(r: nat, s: bv32, v: Data): bv32 {
    if v == [] then s else Xor(Turned(r, Syndrome(r, s, v[..|v| - 1])), Embed(v[|v| - 1]))
  }

  lemma {:induction false} SyndromeLinear(r: nat, s: bv32, t: bv32, v: Data, w: Data)
    requires |v| == |w|
    ensures Syndrome(r, Xor(s, t), XorSeq(v, w)) == Xor(Syndrome(r, s, v), Syndrome(r, t, w))
  {
    hide Turned, Embed, Xor, Xor8;
    if v != [] {
      var n := |v| - 1;
      SyndromeLinear(r, s, t, v[..n], w[..n]);
      assert XorSeq(v, w)[..n] == XorSeq(v[..n], w[..n]);
      var a, b := Syndrome(r, s, v[..n]), Syndrome(r, t, w[..n]);
      TurnedLinear(r, a, b);
      EmbedLinear(v[n], w[n]);
      XorCross(Turned(r, a), Turned(r, b), Embed(v[n]), Embed(w[n]));
    }
  }

  lemma {:induction false} SyndromeAppend(r: nat, s: bv32, v: Data, w: Data)
    ensures Syndrome(r, s, v + w) == Syndrome(r, Syndrome(r, s, v), w)
  {
    hide Turned, Embed, Xor;
    if w == [] {
      assert v + w == v;
    } else {
      assert (v + w)[..|v + w| - 1] == v + w[..|w| - 1];
      SyndromeAppend(r, s, v, w[..|w| - 1]);
    }
  }

  lemma {:induction false} SyndromeZeroes(r: nat, s: bv32, n: nat)
    ensures Syndrome(r, s, Zeroes(n)) == Turned(r * n, s)
  {
    if n == 0 {
      assert r * n == 0;
    } else {
      hide Turned, Embed, Xor;
      SyndromeZeroes(r, s, n - 1);
      assert Zeroes(n)[..n - 1] == Zeroes(n - 1);
      EmbedZero();
      XorZero(Turned(r, Turned(r * (n - 1), s)));
      TurnedAdd(r, r * (n - 1), s);
      assert r + r * (n - 1) == r * n;
    }
  }

  lemma EmbedZero()
    ensures Embed(0) == 0
  {
  }

  lemma SyndromeOne(r: nat, s: bv32, v: bv8)
    ensures Syndrome(r, s, [v]) == Xor(Turned(r, s), Embed(v))
  {
    hide Turned, Embed, Xor;
    assert [v][..0] == [];
  }

  // ------------------------------------------------------- roots of the generator

  // The generator vanishes at the r-th power: its multiples, moved up by the six
  // values of the remainder, are what the step takes off.
  ghost predicate Root(r: nat) {
    forall g: bv8 | g < 32 :: RootAt(r, g)
  }

  ghost predicate RootAt(r: nat, g: bv8) {
    Syndrome(r, 0, Groups(Taps(g))) == Turned(r * 6, Embed(g))
  }

  lemma GroupsLinear(c: bv32, d: bv32)
    requires c < 0x40000000 && d < 0x40000000
    ensures |Groups(c)| == |Groups(d)| == 6 && Groups(Xor(c, d)) == XorSeq(Groups(c), Groups(d))
  {
    hide Groups, Fold, Xor, XorSeq;
    XorBound(c, d);
    GroupsFold(c);
    GroupsFold(d);
    GroupsFold(Xor(c, d));
    GroupsFive(c);
    GroupsFive(d);
    GroupsFive(Xor(c, d));
    XorSeqFive(Groups(c), Groups(d));
    XorSeqLength(Groups(c), Groups(d));
    XorZero(0);
    FoldLinear(0, 0, Groups(c), Groups(d));
    if Groups(Xor(c, d)) != XorSeq(Groups(c), Groups(d)) {
      WindowsDiffer(0, Groups(Xor(c, d)), XorSeq(Groups(c), Groups(d)));
    }
  }

  lemma PartsBound(c: bv32, v: bv8)
    requires v < 32
    ensures Xor(Shifted(c), Wide(v)) < 0x40000000 && Taps(v) < 0x40000000
  {
  }

  // What the step does before the generator comes in.
  lemma GroupsShift(c: bv32, v: bv8)
    requires c < 0x40000000 && v < 32
    ensures Groups(Xor(Shifted(c), Wide(v))) == Groups(c)[1..] + [v] && ShiftedOut(c) == Group(c, 0) < 32
  {
    GroupsShiftEach(c, v);
    hide Group, Xor, Shifted, Wide, ShiftedOut;
  }

  lemma GroupsShiftEach(c: bv32, v: bv8)
    requires c < 0x40000000 && v < 32
    ensures var s := Xor(Shifted(c), Wide(v));
            && Group(s, 0) == Group(c, 1) && Group(s, 1) == Group(c, 2) && Group(s, 2) == Group(c, 3)
            && Group(s, 3) == Group(c, 4) && Group(s, 4) == Group(c, 5) && Group(s, 5) == v
    ensures ShiftedOut(c) == Group(c, 0) < 32
  {
  }

  // The remainder takes a value in as the syndrome does.
  lemma SyndromeStep(r: nat, c: bv32, v: bv8)
    requires Root(r) && c < 0x40000000 && v < 32
    ensures Syndrome(r, 0, Groups(Step(c, v))) == Xor(Turned(r, Syndrome(r, 0, Groups(c))), Embed(v))
  {
    hide Turned, Embed, Xor, Syndrome, Taps, Shifted, ShiftedOut, Wide, Group;
    var s, g := Xor(Shifted(c), Wide(v)), ShiftedOut(c);
    GroupsShift(c, v);
    PartsBound(c, v);
    PartsBound(c, g);
    GroupsLinear(s, Taps(g));
    XorZero(0);
    SyndromeLinear(r, 0, 0, Groups(s), Groups(Taps(g)));
    assert RootAt(r, g);
    SyndromeShift(r, Groups(c), v);
    XorCommutative(Syndrome(r, 0, Groups(s)), Turned(r * 6, Embed(g)));
  }

  // The first of six values moved out.
  lemma SyndromeShift(r: nat, v: Data, w: bv8)
    requires |v| == 6
    ensures Xor(Turned(r, Syndrome(r, 0, v)), Embed(w)) == Xor(Turned(r * 6, Embed(v[0])), Syndrome(r, 0, v[1..] + [w]))
  {
    hide Turned, Embed, Xor, Syndrome, XorSeq;
    var t := v[1..] + [w];
    assert v + [w] == [v[0]] + t;
    SyndromeAppend(r, 0, v, [w]);
    SyndromeOne(r, Syndrome(r, 0, v), w);
    SyndromeAppend(r, 0, [v[0]], t);
    SyndromeOne(r, 0, v[0]);
    TurnedZero(r);
    XorZero(Embed(v[0]));
    SyndromeLinear(r, Embed(v[0]), 0, Zeroes(6), t);
    XorZeroes(t);
    SyndromeZeroes(r, Embed(v[0]), 6);
  }

  lemma XorZeroes(v: Data)
    ensures XorSeq(Zeroes(|v|), v) == v
  {
  }

  lemma {:induction false} SyndromeFold(r: nat, v: Data)
    requires Root(r) && FiveBits(v)
    ensures Syndrome(r, 0, v) == Syndrome(r, 0, Groups(Fold(0, v)))
  {
    hide Turned, Embed, Xor, Step, Groups, Root;
    if v == [] {
      GroupsZero();
      SyndromeZeroes(r, 0, 6);
      TurnedZero(r * 6);
    } else {
      var u := v[..|v| - 1];
      SyndromeFold(r, u);
      FoldBound(0, u);
      SyndromeStep(r, Fold(0, u), v[|v| - 1]);
    }
  }

  lemma GroupsZero()
    ensures Groups(0) == Zeroes(6)
  {
  }

  // No remainder: every root of the generator is a root.
  lemma SyndromeVanishes(r: nat, v: Data)
    requires Root(r) && FiveBits(v) && Fold(0, v) == 0
    ensures Syndrome(r, 0, v) == 0
  {
    hide Turned, Syndrome, Fold, Groups, Root, Zeroes;
    SyndromeFold(r, v);
    GroupsZero();
    SyndromeZeroes(r, 0, 6);
    TurnedZero(r * 6);
  }

  lemma {:induction false} SyndromeElement(r: nat, v: Data)
    ensures Element(Syndrome(r, 0, v))
  {
    if v != [] {
      hide Turned, Embed, Xor, Element;
      SyndromeElement(r, v[..|v| - 1]);
      TurnedElement(r, Syndrome(r, 0, v[..|v| - 1]));
      EmbedElement(v[|v| - 1]);
      XorElement(Turned(r, Syndrome(r, 0, v[..|v| - 1])), Embed(v[|v| - 1]));
    }
  }

  // One more value at the element k.
  function Stage(s: bv32, k: bv32, x: bv8): bv32 {
    Xor(Times(s, k), Embed(x))
  }

  lemma SyndromeNext(r: nat, k: bv32, v: Data, x: bv8)
    requires IsPower(r, k)
    ensures Syndrome(r, 0, v + [x]) == Stage(Syndrome(r, 0, v), k, x)
  {
    hide Turned, Times, Embed, Xor, Syndrome, IsPower, Element;
    SyndromeAppend(r, 0, v, [x]);
    SyndromeOne(r, Syndrome(r, 0, v), x);
    SyndromeElement(r, v);
    TurnedIsTimes(r, k, Syndrome(r, 0, v));
  }

  // The multiples of the generator that are tapped, value by value.
  lemma GeneratorValues()
    ensures Groups(Taps(1)) == [29, 22, 20, 21, 29, 18]
    ensures Groups(Taps(2)) == [19, 5, 1, 3, 19, 13]
    ensures Groups(Taps(4)) == [15, 10, 2, 6, 15, 26]
    ensures Groups(Taps(8)) == [30, 20, 4, 12, 30, 29]
    ensures Groups(Taps(16)) == [21, 1, 8, 24, 21, 19]
  {
  }

  lemma RootAtOne(r: nat, k: bv32, a: bv32, b: bv32, c: bv32, d: bv32, e: bv32, l: bv32)
    requires IsPower(r, k) && IsPower(r * 6, l) && a == Embed(29) && b == Stage(a, k, 22) && c == Stage(b, k, 20)
    requires d == Stage(c, k, 21) && e == Stage(d, k, 29) && l == Stage(e, k, 18)
    ensures RootAt(r, 1)
  {
    EmbedOne();
    hide Turned, Embed, Stage, Syndrome, Taps, Groups;
    SyndromeOne(r, 0, 29);
    TurnedZero(r);
    XorZero(a);
    var v: Data := [29, 22, 20, 21, 29, 18];
    SyndromeNext(r, k, v[..1], 22);
    SyndromeNext(r, k, v[..2], 20);
    SyndromeNext(r, k, v[..3], 21);
    SyndromeNext(r, k, v[..4], 29);
    SyndromeNext(r, k, v[..5], 18);
    assert v[..1] == [29] && v[..2] == v[..1] + [22] && v[..3] == v[..2] + [20] && v[..4] == v[..3] + [21];
    assert v[..5] == v[..4] + [29] && v == v[..5] + [18];
    GeneratorValues();
  }

  lemma EmbedOne()
    ensures Embed(1) == 1 && Embed(29) == 0x1c7
  {
  }

  lemma Stages997()
    ensures Stage(0x1c7, 0xd, 22) == 0x60
    ensures Stage(0x60, 0xd, 20) == 0x141
    ensures Stage(0x141, 0xd, 21) == 0x1a7
    ensures Stage(0x1a7, 0xd, 29) == 0x1ab
    ensures Stage(0x1ab, 0xd, 18) == 0x5f
  {
  }

  lemma Stages998()
    ensures Stage(0x1c7, 0x1a, 22) == 0x1d1
    ensures Stage(0x1d1, 0x1a, 20) == 0x160
    ensures Stage(0x160, 0x1a, 21) == 0x2d1
    ensures Stage(0x2d1, 0x1a, 29) == 0x29f
    ensures Stage(0x29f, 0x1a, 18) == 0x31e
  {
  }

  lemma Stages999()
    ensures Stage(0x1c7, 0x34, 22) == 0x2b3
    ensures Stage(0x2b3, 0x34, 20) == 0x2b3
    ensures Stage(0x2b3, 0x34, 21) == 0x2b2
    ensures Stage(0x2b2, 0x34, 29) == 0xe1
    ensures Stage(0xe1, 0x34, 18) == 0x320
  {
  }

  // Multiplication by two in the field of 32 elements.
  function Scaled(v: bv8): bv8 {
    Xor8((v & 15) << 1, if Bit(v, 16) then 9 else 0)
  }

  ghost function ScaledSeq(v: Data): Data {
    seq(|v|, i requires 0 <= i < |v| => Scaled(v[i]))
  }

  lemma ScaledValues()
    ensures Times(1, 0x14d) == 0x14d && Times(0x14d, 0x14d) == 0x283 && Times(0x283, 0x14d) == 0x267
    ensures Times(0x267, 0x14d) == 0x122 && Times(0x122, 0x14d) == 0x266
    ensures Element(1) && Element(0x14d) && Element(0x283) && Element(0x267) && Element(0x122)
  {
  }

  lemma TurnedPart(set_: bool, k: bv32)
    requires Element(k)
    ensures Turned(99, Tap(set_, k)) == Tap(set_, Times(k, 0x14d))
  {
    hide Turned, Times, Element, IsPower;
    TurnedTap(99, set_, k);
    PowersAre();
    TurnedIsTimes(99, 0x14d, k);
  }

  lemma EmbedScaled(v: bv8)
    requires v < 32
    ensures Embed(Scaled(v)) == Turned(99, Embed(v))
  {
    ScaledBits(v);
    TurnedEmbed(v);
    hide Turned, Embed, Tap, Xor, Bit, Scaled;
  }

  lemma TurnedEmbed(v: bv8)
    ensures Turned(99, Embed(v)) == Mixed(v, 0x14d, 0x283, 0x267, 0x122, 0x266)
  {
    hide Turned, Times, Tap, Xor, Bit, Element;
    var v1, v2, v3 := Tap(Bit(v, 1), 1), Tap(Bit(v, 2), 0x14d), Tap(Bit(v, 4), 0x283);
    var v4, v5 := Tap(Bit(v, 8), 0x267), Tap(Bit(v, 16), 0x122);
    TurnedLinear(99, v1, v2);
    TurnedLinear(99, Xor(v1, v2), v3);
    TurnedLinear(99, Xor(Xor(v1, v2), v3), v4);
    TurnedLinear(99, Xor(Xor(Xor(v1, v2), v3), v4), v5);
    ScaledValues();
    TurnedPart(Bit(v, 1), 1);
    TurnedPart(Bit(v, 2), 0x14d);
    TurnedPart(Bit(v, 4), 0x283);
    TurnedPart(Bit(v, 8), 0x267);
    TurnedPart(Bit(v, 16), 0x122);
  }

  lemma ScaledBits(v: bv8)
    requires v < 32
    ensures Embed(Scaled(v)) == Mixed(v, 0x14d, 0x283, 0x267, 0x122, 0x266)
  {
  }

  lemma {:induction false} SyndromeScaled(r: nat, v: Data)
    requires FiveBits(v)
    ensures Syndrome(r, 0, ScaledSeq(v)) == Turned(99, Syndrome(r, 0, v))
  {
    hide Turned, Embed, Xor, Scaled;
    if v == [] {
      TurnedZero(99);
    } else {
      var u, x := v[..|v| - 1], v[|v| - 1];
      SyndromeScaled(r, u);
      assert ScaledSeq(v)[..|u|] == ScaledSeq(u);
      EmbedScaled(x);
      TurnedCommutes(99, r, Syndrome(r, 0, u));
      TurnedLinear(99, Turned(r, Syndrome(r, 0, u)), Embed(x));
    }
  }

  lemma RootScaled(r: nat, g: bv8)
    requires RootAt(r, g) && g < 32 && FiveBits(Groups(Taps(g))) && Groups(Taps(Scaled(g))) == ScaledSeq(Groups(Taps(g)))
    ensures RootAt(r, Scaled(g))
  {
    hide Turned, Embed, Syndrome, Taps, Groups, Scaled;
    SyndromeScaled(r, Groups(Taps(g)));
    EmbedScaled(g);
    TurnedCommutes(99, r * 6, Embed(g));
  }

  // The higher multiples of the generator are the lowest one scaled.
  lemma ValuesScaled()
    ensures ScaledSeq([29, 22, 20, 21, 29, 18]) == [19, 5, 1, 3, 19, 13]
    ensures ScaledSeq([19, 5, 1, 3, 19, 13]) == [15, 10, 2, 6, 15, 26]
    ensures ScaledSeq([15, 10, 2, 6, 15, 26]) == [30, 20, 4, 12, 30, 29]
    ensures ScaledSeq([30, 20, 4, 12, 30, 29]) == [21, 1, 8, 24, 21, 19]
    ensures Scaled(1) == 2 && Scaled(2) == 4 && Scaled(4) == 8 && Scaled(8) == 16
  {
  }

  lemma RootAtBits(r: nat)
    requires RootAt(r, 1)
    ensures RootAt(r, 2) && RootAt(r, 4) && RootAt(r, 8) && RootAt(r, 16)
  {
    hide RootAt, Taps, Groups, Scaled, ScaledSeq;
    GeneratorValues();
    ValuesScaled();
    RootScaled(r, 1);
    RootScaled(r, 2);
    RootScaled(r, 4);
    RootScaled(r, 8);
  }

  lemma RootLinear(r: nat, g: bv8, h: bv8)
    requires g < 32 && h < 32 && RootAt(r, g) && RootAt(r, h)
    ensures RootAt(r, Xor8(g, h))
  {
    hide Turned, Embed, Xor, Syndrome, Taps, Group;
    TapsLinear(g, h);
    PartsBound(0, g);
    PartsBound(0, h);
    GroupsLinear(Taps(g), Taps(h));
    XorZero(0);
    SyndromeLinear(r, 0, 0, Groups(Taps(g)), Groups(Taps(h)));
    EmbedLinear(g, h);
    TurnedLinear(r * 6, Embed(g), Embed(h));
    assert g ^ h == Xor8(g, h);
  }

  lemma BitsOf(g: bv8)
    requires g < 32
    ensures g == Xor8(Xor8(Xor8(Xor8(g & 1, g & 2), g & 4), g & 8), g & 16)
    ensures (g & 1 == 0 || g & 1 == 1) && (g & 2 == 0 || g & 2 == 2) && (g & 4 == 0 || g & 4 == 4)
    ensures (g & 8 == 0 || g & 8 == 8) && (g & 16 == 0 || g & 16 == 16)
    ensures g & 1 < 32 && g & 2 < 32 && g & 4 < 32 && g & 8 < 32 && g & 16 < 32
    ensures Xor8(g & 1, g & 2) < 32 && Xor8(Xor8(g & 1, g & 2), g & 4) < 32
    ensures Xor8(Xor8(Xor8(g & 1, g & 2), g & 4), g & 8) < 32
  {
  }

  lemma RootSpan(r: nat)
    requires RootAt(r, 1) && RootAt(r, 2) && RootAt(r, 4) && RootAt(r, 8) && RootAt(r, 16)
    ensures Root(r)
  {
    assert Xor8(1, 1) == 0;
    hide RootAt, Xor8;
    RootLinear(r, 1, 1);
    forall g: bv8 | g < 32
      ensures RootAt(r, g)
    {
      BitsOf(g);
      RootLinear(r, g & 1, g & 2);
      RootLinear(r, Xor8(g & 1, g & 2), g & 4);
      RootLinear(r, Xor8(Xor8(g & 1, g & 2), g & 4), g & 8);
      RootLinear(r, Xor8(Xor8(Xor8(g & 1, g & 2), g & 4), g & 8), g & 16);
    }
  }

  lemma Sixfold997()
    ensures Times(0xd, 0xd) == 0x51 && Times(0x51, 0x51) == 0x3fa && Times(0x3fa, 0x51) == 0x5f
  {
  }

  lemma Sixfold998()
    ensures Times(0x1a, 0x1a) == 0x144 && Times(0x144, 0x144) == 0x2c2 && Times(0x2c2, 0x144) == 0x31e
  {
  }

  lemma Sixfold999()
    ensures Times(0x34, 0x34) == 0x335 && Times(0x335, 0x335) == 0x3b9 && Times(0x3b9, 0x335) == 0x320
  {
  }

  lemma SixfoldPower(r: nat, k: bv32, k2: bv32, k4: bv32)
    requires IsPower(r, k) && Times(k, k) == k2 && Times(k2, k2) == k4
    ensures IsPower(r * 6, Times(k4, k2))
  {
    hide Times, IsPower;
    PowerSum(r, r, k, k);
    PowerSum(r * 2, r * 2, k2, k2);
    PowerSum(r * 4, r * 2, k4, k2);
    assert r * 2 == r + r && r * 4 == r * 2 + r * 2 && r * 6 == r * 4 + r * 2;
  }

  lemma RootPowers()
    ensures IsPower(997, 0xd) && IsPower(998, 0x1a) && IsPower(999, 0x34)
  {
    PowersAre();
    NextTurns();
    hide Turn;
  }

  lemma NextTurns()
    ensures Turn(0xd) == 0x1a && Turn(0x1a) == 0x34
  {
  }

  lemma Root997()
    ensures Root(997)
  {
    hide Times, Stage, Embed, IsPower, Root, RootAt;
    RootPowers();
    Sixfold997();
    SixfoldPower(997, 0xd, 0x51, 0x3fa);
    EmbedOne();
    Stages997();
    RootAtOne(997, 0xd, 0x1c7, 0x60, 0x141, 0x1a7, 0x1ab, 0x5f);
    RootAtBits(997);
    RootSpan(997);
  }

  lemma Root998()
    ensures Root(998)
  {
    hide Times, Stage, Embed, IsPower, Root, RootAt;
    RootPowers();
    Sixfold998();
    SixfoldPower(998, 0x1a, 0x144, 0x2c2);
    EmbedOne();
    Stages998();
    RootAtOne(998, 0x1a, 0x1c7, 0x1d1, 0x160, 0x2d1, 0x29f, 0x31e);
    RootAtBits(998);
    RootSpan(998);
  }

  lemma Root999()
    ensures Root(999)
  {
    hide Times, Stage, Embed, IsPower, Root, RootAt;
    RootPowers();
    Sixfold999();
    SixfoldPower(999, 0x34, 0x335, 0x3b9);
    EmbedOne();
    Stages999();
    RootAtOne(999, 0x34, 0x1c7, 0x2b3, 0x2b3, 0x2b2, 0xe1, 0x320);
    RootAtBits(999);
    RootSpan(999);
  }

  // ------------------------------------------------------------- three errors

  ghost function Three(a: bv32, b: bv32, c: bv32): bv32 {
    Xor(Xor(a, b), c)
  }

  ghost predicate Near(p: nat, q: nat) {
    p != q && p < q + 1023 && q < p + 1023
  }

  lemma ThreeZero(a: bv32, b: bv32, c: bv32)
    ensures Three(a, b, c) == 0 <==> Xor(a, b) == c
  {
    XorCancels(Xor(a, b), c);
    hide Xor;
  }

  // Two of the three sums, less the third term.
  lemma Eliminate(p: nat, q: nat, t: nat, x: bv32, y: bv32, z: bv32)
    requires Three(x, y, z) == 0 && Three(Turned(p, x), Turned(q, y), Turned(t, z)) == 0
    ensures Xor(Turned(p, x), Turned(t, x)) == Xor(Turned(q, y), Turned(t, y))
  {
    hide Turned, Xor, Three;
    ThreeZero(x, y, z);
    ThreeZero(Turned(p, x), Turned(q, y), Turned(t, z));
    TurnedLinear(t, x, y);
    XorCancels(Xor(Turned(p, x), Turned(q, y)), Xor(Turned(t, x), Turned(t, y)));
    XorCross(Turned(p, x), Turned(q, y), Turned(t, x), Turned(t, y));
    XorCancels(Xor(Turned(p, x), Turned(t, x)), Xor(Turned(q, y), Turned(t, y)));
  }

  // Three values that three consecutive syndromes do not show.
  ghost predicate Unseen(p: nat, q: nat, t: nat, x: bv32, y: bv32, z: bv32) {
    && Three(x, y, z) == 0
    && Three(Turned(p, x), Turned(q, y), Turned(t, z)) == 0
    && Three(Turned(p, Turned(p, x)), Turned(q, Turned(q, y)), Turned(t, Turned(t, z))) == 0
  }

  lemma EliminateAgain(p: nat, q: nat, t: nat, x: bv32, y: bv32, z: bv32)
    requires Unseen(p, q, t, x, y, z)
    ensures var w := Xor(Turned(p, x), Turned(t, x)); Turned(p, w) == Turned(q, w)
  {
    hide Turned, Xor, Three;
    Eliminate(p, q, t, x, y, z);
    Eliminate(p, q, t, Turned(p, x), Turned(q, y), Turned(t, z));
    TurnedLinear(p, Turned(p, x), Turned(t, x));
    TurnedCommutes(p, t, x);
    TurnedLinear(q, Turned(q, y), Turned(t, y));
    TurnedCommutes(q, t, y);
  }

  // A Vandermonde system of three rows has only the zero solution.
  lemma FirstVanishes(p: nat, q: nat, t: nat, x: bv32, y: bv32, z: bv32)
    requires Element(x) && Near(p, q) && Near(p, t) && Unseen(p, q, t, x, y, z)
    ensures x == 0
  {
    hide Turned, Xor, Unseen, Element;
    EliminateAgain(p, q, t, x, y, z);
    TurnedElement(p, x);
    TurnedElement(t, x);
    XorElement(Turned(p, x), Turned(t, x));
    TurnsDiffer(p, q, Xor(Turned(p, x), Turned(t, x)));
    XorCancels(Turned(p, x), Turned(t, x));
    TurnsDiffer(p, t, x);
  }

  lemma ThreeSwapped(a: bv32, b: bv32, c: bv32)
    ensures Three(a, b, c) == Three(b, a, c) == Three(c, b, a)
  {
    hide Xor;
    XorCommutative(a, b);
    XorAssociative(a, b, c);
    XorCommutative(a, Xor(b, c));
    XorCommutative(b, c);
  }

  lemma UnseenSwapped(p: nat, q: nat, t: nat, x: bv32, y: bv32, z: bv32)
    requires Unseen(p, q, t, x, y, z)
    ensures Unseen(q, p, t, y, x, z) && Unseen(t, q, p, z, y, x)
  {
    hide Turned, Three;
    ThreeSwapped(x, y, z);
    ThreeSwapped(Turned(p, x), Turned(q, y), Turned(t, z));
    ThreeSwapped(Turned(p, Turned(p, x)), Turned(q, Turned(q, y)), Turned(t, Turned(t, z)));
  }

  lemma AllVanish(p: nat, q: nat, t: nat, x: bv32, y: bv32, z: bv32)
    requires Element(x) && Element(y) && Element(z) && Near(p, q) && Near(p, t) && Near(q, t) && Unseen(p, q, t, x, y, z)
    ensures x == 0 && y == 0 && z == 0
  {
    hide Unseen, Element;
    UnseenSwapped(p, q, t, x, y, z);
    FirstVanishes(p, q, t, x, y, z);
    FirstVanishes(q, p, t, y, x, z);
    FirstVanishes(t, q, p, z, y, x);
  }

  // One value at i among n zeroes.
  ghost function Single(n: nat, i: nat, x: bv8): Data
    requires i < n
  {
    Zeroes(n)[i := x]
  }

  // What a value with p values after it gives.
  ghost function Term(r: nat, p: nat, v: bv8): bv32 {
    Turned(r * p, Embed(v))
  }

  lemma SyndromeSingle(r: nat, n: nat, i: nat, x: bv8)
    requires i < n
    ensures Syndrome(r, 0, Single(n, i, x)) == Term(r, n - 1 - i, x)
  {
    assert Single(n, i, x) == Zeroes(i) + ([x] + Zeroes(n - 1 - i));
    hide Turned, Embed, Xor, Syndrome, Zeroes;
    SyndromeAppend(r, 0, Zeroes(i), [x] + Zeroes(n - 1 - i));
    SyndromeZeroes(r, 0, i);
    TurnedZero(r * i);
    SyndromeAppend(r, 0, [x], Zeroes(n - 1 - i));
    SyndromeOne(r, 0, x);
    TurnedZero(r);
    XorZero(Embed(x));
    SyndromeZeroes(r, Embed(x), n - 1 - i);
  }

  // Zero but at i, j and k.
  ghost predicate Sparse(e: Data, i: nat, j: nat, k: nat) {
    i < j < k < |e| && forall n | 0 <= n < |e| && n != i && n != j && n != k :: e[n] == 0
  }

  lemma SparseSum(e: Data, i: nat, j: nat, k: nat)
    requires Sparse(e, i, j, k)
    ensures e == XorSeq(XorSeq(Single(|e|, i, e[i]), Single(|e|, j, e[j])), Single(|e|, k, e[k]))
  {
    hide Xor8;
    var a, b, c := Single(|e|, i, e[i]), Single(|e|, j, e[j]), Single(|e|, k, e[k]);
    var s := XorSeq(a, b);
    forall n | 0 <= n < |e|
      ensures XorSeq(s, c)[n] == e[n]
    {
      Xor8Zero(e[n]);
      Xor8Zero(0);
      assert s[n] == Xor8(a[n], b[n]) && XorSeq(s, c)[n] == Xor8(s[n], c[n]);
    }
  }

  lemma Xor8Zero(v: bv8)
    ensures Xor8(v, 0) == v && Xor8(0, v) == v
  {
  }

  lemma SyndromeThree(r: nat, e: Data, i: nat, j: nat, k: nat)
    requires Sparse(e, i, j, k)
    ensures Syndrome(r, 0, e) == Three(Term(r, |e| - 1 - i, e[i]), Term(r, |e| - 1 - j, e[j]), Term(r, |e| - 1 - k, e[k]))
  {
    hide Xor, Syndrome, XorSeq, Single, Term, Xor8;
    SparseSum(e, i, j, k);
    var a, b, c := Single(|e|, i, e[i]), Single(|e|, j, e[j]), Single(|e|, k, e[k]);
    SingleLength(|e|, i, e[i]);
    SingleLength(|e|, j, e[j]);
    SingleLength(|e|, k, e[k]);
    XorSeqLength(a, b);
    XorZero(0);
    SyndromeLinear(r, 0, 0, XorSeq(a, b), c);
    SyndromeLinear(r, 0, 0, a, b);
    SyndromeSingle(r, |e|, i, e[i]);
    SyndromeSingle(r, |e|, j, e[j]);
    SyndromeSingle(r, |e|, k, e[k]);
  }

  lemma SingleLength(n: nat, i: nat, x: bv8)
    requires i < n
    ensures |Single(n, i, x)| == n
  {
  }

  // Consecutive syndromes differ by the power of the place.
  lemma ConsecutiveTerms(p: nat, v: bv8)
    ensures Term(998, p, v) == Turned(p, Term(997, p, v))
    ensures Term(999, p, v) == Turned(p, Turned(p, Term(997, p, v)))
  {
    hide Turned, Embed;
    TurnedAdd(p, 997 * p, Embed(v));
    TurnedAdd(p, 998 * p, Embed(v));
    assert 998 * p == p + 997 * p && 999 * p == p + 998 * p;
  }

  lemma TermElement(p: nat, v: bv8)
    requires v < 32
    ensures Element(Term(997, p, v)) && (Term(997, p, v) == 0 ==> v == 0)
  {
    hide Turned, Embed, Element;
    EmbedElement(v);
    TurnedElement(997 * p, Embed(v));
    if Turned(997 * p, Embed(v)) == 0 {
      TurnedKernel(997 * p, Embed(v));
      EmbedKernel(v);
    }
  }

  lemma SparseUnseen(e: Data, i: nat, j: nat, k: nat)
    requires FiveBits(e) && Sparse(e, i, j, k) && Fold(0, e) == 0
    ensures var p, q, t := |e| - 1 - i, |e| - 1 - j, |e| - 1 - k;
            Unseen(p, q, t, Term(997, p, e[i]), Term(997, q, e[j]), Term(997, t, e[k]))
  {
    hide Turned, Term, Syndrome, Three, Fold, Root;
    Root997();
    Root998();
    Root999();
    SyndromeVanishes(997, e);
    SyndromeVanishes(998, e);
    SyndromeVanishes(999, e);
    SyndromeThree(997, e, i, j, k);
    SyndromeThree(998, e, i, j, k);
    SyndromeThree(999, e, i, j, k);
    ConsecutiveTerms(|e| - 1 - i, e[i]);
    ConsecutiveTerms(|e| - 1 - j, e[j]);
    ConsecutiveTerms(|e| - 1 - k, e[k]);
  }

  // Up to three values within 1023 places, if any, leave a remainder.
  lemma SparseDetected(e: Data, i: nat, j: nat, k: nat)
    requires FiveBits(e) && Sparse(e, i, j, k) && k < i + 1023 && Fold(0, e) == 0
    ensures e[i] == 0 && e[j] == 0 && e[k] == 0
  {
    hide Unseen, Term, Fold, Element;
    var p, q, t := |e| - 1 - i, |e| - 1 - j, |e| - 1 - k;
    SparseUnseen(e, i, j, k);
    TermElement(p, e[i]);
    TermElement(q, e[j]);
    TermElement(t, e[k]);
    AllVanish(p, q, t, Term(997, p, e[i]), Term(997, q, e[j]), Term(997, t, e[k]));
  }

  // ------------------------------------------------------- what a string may lose

  ghost predicate AgreeBut(v: Data, w: Data, i: nat, j: nat, k: nat) {
    |v| == |w| && forall n | 0 <= n < |v| && n != i && n != j && n != k :: v[n] == w[n]
  }

  // A valid string with up to three changed values, wherever they are within
  // 1023 places, is no longer valid.
  lemma ThreeErrorsRejected(hrp: Data, v: Data, w: Data, i: nat, j: nat, k: nat)
    requires FiveBits(v) && FiveBits(w) && i < j < k < |v| && k < i + 1023
    requires AgreeBut(v, w, i, j, k) && v != w && Verifies(hrp, v)
    ensures !Verifies(hrp, w)
  {
    hide Fold, Expanded;
    ExpandedFive(hrp);
    var n, a, b := |Expanded(hrp)|, Expanded(hrp) + v, Expanded(hrp) + w;
    assert a[n..] == v && b[n..] == w;
    SequencesDiffer(a, b, n + i, n + j, n + k);
  }

  lemma DifferenceFolds(v: Data, w: Data)
    requires |v| == |w| && Fold(1, v) == Fold(1, w)
    ensures Fold(0, XorSeq(v, w)) == 0
  {
    hide Fold, XorSeq;
    FoldLinear(1, 1, v, w);
    XorZero(1);
    XorCancels(Fold(1, v), Fold(1, w));
  }

  lemma DifferenceSparse(v: Data, w: Data, i: nat, j: nat, k: nat)
    requires i < j < k < |v| && AgreeBut(v, w, i, j, k)
    ensures Sparse(XorSeq(v, w), i, j, k)
  {
    forall n | 0 <= n < |v| && n != i && n != j && n != k
      ensures XorSeq(v, w)[n] == 0
    {
      Xor8Cancels(v[n], w[n]);
    }
  }

  // Two different sequences that agree but at three places within 1023 have
  // different remainders.
  lemma SequencesDiffer(v: Data, w: Data, i: nat, j: nat, k: nat)
    requires FiveBits(v) && FiveBits(w) && i < j < k < |v| && k < i + 1023 && AgreeBut(v, w, i, j, k) && v != w
    ensures Fold(1, v) != Fold(1, w)
  {
    if Fold(1, v) == Fold(1, w) {
      DifferenceFolds(v, w);
      XorSeqFive(v, w);
      DifferenceSparse(v, w, i, j, k);
      hide Fold, XorSeq;
      SparseDetected(XorSeq(v, w), i, j, k);
      ZeroXor(v, w);
    }
  }

  // The two values of a character determine it.
  lemma HalvesDetermine(c: bv8, d: bv8)
    requires HighPart(c) == HighPart(d) && LowPart(c) == LowPart(d)
    ensures c == d
  {
  }

  lemma ExpandedAt(hrp: Data, n: nat)
    requires n < 2 * |hrp| + 1
    ensures |Expanded(hrp)| == 2 * |hrp| + 1
    ensures Expanded(hrp)[n] == if n < |hrp| then HighPart(hrp[n]) else if n == |hrp| then 0 else LowPart(hrp[n - |hrp| - 1])
  {
  }

  lemma ExpandedAgree(hrp: Data, hrp': Data, i: nat)
    requires |hrp'| == |hrp| && i < |hrp| && (forall n | 0 <= n < |hrp| && n != i :: hrp'[n] == hrp[n])
    ensures |Expanded(hrp')| == |Expanded(hrp)| == 2 * |hrp| + 1 && (hrp' != hrp ==> Expanded(hrp') != Expanded(hrp))
    ensures forall n | 0 <= n < |Expanded(hrp)| && n != i && n != |hrp| + 1 + i :: Expanded(hrp')[n] == Expanded(hrp)[n]
  {
    hide Expanded, HighPart, LowPart;
    ExpandedAt(hrp, i);
    ExpandedAt(hrp', i);
    ExpandedAt(hrp, |hrp| + 1 + i);
    ExpandedAt(hrp', |hrp| + 1 + i);
    if Expanded(hrp') == Expanded(hrp) {
      HalvesDetermine(hrp'[i], hrp[i]);
    }
    forall n | 0 <= n < |Expanded(hrp)| && n != i && n != |hrp| + 1 + i
      ensures Expanded(hrp')[n] == Expanded(hrp)[n]
    {
      ExpandedAt(hrp, n);
      ExpandedAt(hrp', n);
    }
  }

  // A valid string with a changed character of the prefix and a changed value,
  // or one of the two, is no longer valid.
  lemma PrefixErrorRejected(hrp: Data, hrp': Data, i: nat, v: Data, w: Data, m: nat)
    requires FiveBits(v) && FiveBits(w) && |w| == |v| && |hrp'| == |hrp| && i < |hrp| && 2 * |hrp| + |v| < 1023
    requires forall n | 0 <= n < |hrp| && n != i :: hrp'[n] == hrp[n]
    requires m < |v| && forall n | 0 <= n < |v| && n != m :: w[n] == v[n]
    requires Verifies(hrp, v) && (hrp' != hrp || w != v)
    ensures !Verifies(hrp', w)
  {
    hide Fold, Expanded;
    ExpandedFive(hrp);
    ExpandedFive(hrp');
    ExpandedAgree(hrp, hrp', i);
    var a, b := Expanded(hrp) + v, Expanded(hrp') + w;
    assert a[..|Expanded(hrp)|] == Expanded(hrp) && b[..|Expanded(hrp)|] == Expanded(hrp');
    assert a[|Expanded(hrp)|..] == v && b[|Expanded(hrp)|..] == w;
    SequencesDiffer(a, b, i, |hrp| + 1 + i, 2 * |hrp| + 1 + m);
  }

  // In particular two, however few values there are.
  lemma TwoErrorsRejected(hrp: Data, pre: Data, a: bv8, mid: Data, b: bv8, post: Data, a': bv8, b': bv8)
    requires FiveBits(pre) && FiveBits(mid) && FiveBits(post) && a < 32 && b < 32 && a' < 32 && b' < 32
    requires a != a' && |mid| < 1022 && Verifies(hrp, pre + ([a] + mid + [b]) + post)
    ensures !Verifies(hrp, pre + ([a'] + mid + [b']) + post)
  {
    hide Fold, Expanded;
    var v, w := pre + ([a] + mid + [b]) + post, pre + ([a'] + mid + [b']) + post;
    assert v[|pre|] == a && w[|pre|] == a';
    if mid == [] {
      BurstRejected(hrp, pre, [a] + mid + [b], [a'] + mid + [b'], post);
    } else {
      ThreeErrorsRejected(hrp, v, w, |pre|, |pre| + 1, |pre| + 1 + |mid|);
    }
  }

  // A string that decodes, with up to three characters after the separator
  // replaced so that they stand for other values, does not.
  lemma ThreeCharactersRejected(s: Data, t: Data, i: nat, j: nat, k: nat)
    requires Decoding(s).Some? && AgreeBut(s, t, i, j, k) && LastSeparator(s, |s|) < i < j < k < |s|
    requires t[i] != SEPARATOR && t[j] != SEPARATOR && t[k] != SEPARATOR
    requires var pos := LastSeparator(s, |s|) + 1; Values(s[pos..]) != Values(t[pos..])
    ensures Decoding(t).None?
  {
    hide Verifies, Acceptable, LastSeparator, Values, Lowered;
    var pos := LastSeparator(s, |s|);
    SamePrefix(s, t, i, j, k);
    SameValues(s[pos + 1..], t[pos + 1..], i - pos - 1, j - pos - 1, k - pos - 1);
    var v, w := Values(s[pos + 1..]), Values(t[pos + 1..]);
    if NONE !in w {
      ValuesBack(s[pos + 1..]);
      ValuesBack(t[pos + 1..]);
      ThreeErrorsRejected(Lowered(s[..pos]), v, w, i - pos - 1, j - pos - 1, k - pos - 1);
    }
  }

  lemma SamePrefix(s: Data, t: Data, i: nat, j: nat, k: nat)
    requires AgreeBut(s, t, i, j, k) && 0 <= LastSeparator(s, |s|) < i < j < k < |s|
    requires t[i] != SEPARATOR && t[j] != SEPARATOR && t[k] != SEPARATOR
    ensures var pos := LastSeparator(s, |s|); LastSeparator(t, |t|) == pos && t[..pos] == s[..pos]
  {
    hide LastSeparator;
    SeparatorFound(s, |s|);
    SeparatorAt(t, LastSeparator(s, |s|), |t|);
  }

  lemma SameValues(s: Data, t: Data, i: nat, j: nat, k: nat)
    requires AgreeBut(s, t, i, j, k)
    ensures |Values(s)| == |s| && AgreeBut(Values(s), Values(t), i, j, k)
  {
    hide Rev;
  }
}
