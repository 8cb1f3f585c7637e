/**
 256-bit unsigned integers as eight 32-bit limbs, least significant first.  A
 number is its limb array; the compound operators work on it in place.
 */
module Arith256 {
  import opened Numbers

  const WIDTH: nat := 8
  const BASE: nat := 0x1_0000_0000

  type Limb = x: nat | x < BASE

  // 2^64, the range of the accumulators.
  const WORD: nat := 0x1_0000_0000_0000_0000

  // The weight of limb i; Weight(WIDTH) is 2^256.
  ghost function Weight(i: nat): (w: nat)
    ensures w > 0
  {
    if i == 0 then 1 else BASE * Weight(i - 1)
  }

  lemma WeightStep(i: nat)
    ensures Weight(i + 1) == BASE * Weight(i)
  {
  }

  lemma {:induction false} WeightAdd(i: nat, j: nat)
    ensures Weight(i + j) == Weight(i) * Weight(j)
  {
    if j > 0 {
      WeightAdd(i, j - 1);
      assert Weight(i) * (BASE * Weight(j - 1)) == BASE * (Weight(i) * Weight(j - 1));
    }
  }

  lemma BaseIsPow2()
    ensures Pow2(8) == 256 && Pow2(32) == BASE
  {
    assert Pow2(4) == 16;
    Pow2Add(4, 4);
    Pow2Add(8, 8);
    Pow2Add(16, 16);
  }

  lemma {:induction false} WeightIsPow2(i: nat)
    ensures Weight(i) == Pow2(32 * i)
  {
    if i > 0 {
      WeightIsPow2(i - 1);
      BaseIsPow2();
      Pow2Add(32, 32 * (i - 1));
    }
  }

  // The value of the lowest n limbs.
  ghost function Low(s: seq<Limb>, n: nat): nat
    requires n <= |s|
  {
    if n == 0 then 0 else Low(s, n - 1) + s[n - 1] * Weight(n - 1)
  }

  ghost function Value(s: seq<Limb>): nat
    requires |s| == WIDTH
  {
    Low(s, WIDTH)
  }

  lemma {:induction false} LowBound(s: seq<Limb>, n: nat)
    requires n <= |s|
    ensures Low(s, n) < Weight(n)
  {
    if n > 0 {
      LowBound(s, n - 1);
      WeightStep(n - 1);
      TopLimb(s[n - 1], Weight(n - 1));
      hide Weight;
    }
  }

  lemma TopLimb(x: Limb, w: nat)
    ensures x * w + w <= BASE * w
  {
    ProductMonotone(w, x + 1, BASE);
  }

  lemma {:induction false} LowSame(s: seq<Limb>, t: seq<Limb>, n: nat)
    requires n <= |s| && n <= |t| && forall i | 0 <= i < n :: s[i] == t[i]
    ensures Low(s, n) == Low(t, n)
  {
    if n > 0 {
      LowSame(s, t, n - 1);
    }
  }

  // Writing limb n - 1 only adds its own weight.
  lemma LowWrite(s: seq<Limb>, n: nat, x: Limb)
    requires n < |s|
    ensures Low(s[n := x], n) == Low(s, n) && Low(s[n := x], n + 1) == Low(s, n) + x * Weight(n)
  {
    LowSame(s[n := x], s, n);
  }

  // ---------------------------------------------------------------- operator +=

  // One limb of a carry chain.
  lemma CarryStep(low: int, carry: nat, w: nat, n: nat, sum: int, add: nat)
    requires low + carry * w == sum && n == carry + add
    ensures (low + (n % BASE) * w) + (n / BASE) * (BASE * w) == sum + add * w
  {
    SplitWord(n, w);
    assert n * w == carry * w + add * w;
  }

  lemma SplitWord(n: nat, w: nat)
    ensures (n % BASE) * w + (n / BASE) * (BASE * w) == n * w
  {
    assert n == BASE * (n / BASE) + n % BASE;
    Distribute(n / BASE, BASE, n % BASE, w);
    assert w * BASE == BASE * w;
  }

  method AddAssign(pn: array<Limb>, b: array<Limb>)
    requires pn.Length == WIDTH && b.Length == WIDTH
    modifies pn
    ensures Value(pn[..]) == (old(Value(pn[..])) + old(Value(b[..]))) % Weight(WIDTH)
  {
    hide Weight, Low;
    ghost var x, y := pn[..], b[..];
    var carry: nat := 0;
    ZeroLow(pn[..]);
    ZeroLow(x);
    ZeroLow(y);
    for i := 0 to WIDTH
      invariant carry <= 1 && (forall k | i <= k < WIDTH :: pn[k] == x[k] && b[k] == y[k])
      invariant Low(pn[..], i) + carry * Weight(i) == Low(x, i) + Low(y, i)
    {
      var n := carry + pn[i] + b[i];
      assert n < WORD;
      CarryStep(Low(pn[..], i), carry, Weight(i), n, Low(x, i) + Low(y, i), n - carry);
      AddWeights(x[i], y[i], Weight(i));
      var limb: Limb := n % BASE;
      LowWrite(pn[..], i, limb);
      LowNext(x, i);
      LowNext(y, i);
      WeightStep(i);
      ghost var before := pn[..];
      pn[i] := limb;
      assert pn[..] == before[i := limb];
      carry := n / BASE;
    }
    LowBound(pn[..], WIDTH);
    DivisionUnique(Low(x, WIDTH) + Low(y, WIDTH), Weight(WIDTH), carry, Low(pn[..], WIDTH));
  }

  lemma AddWeights(a: nat, b: nat, w: nat)
    ensures (a + b) * w == a * w + b * w
  {
  }

  lemma ZeroLow(s: seq<Limb>)
    ensures Low(s, 0) == 0
  {
  }

  lemma LowNext(s: seq<Limb>, n: nat)
    requires n < |s|
    ensures Low(s, n + 1) == Low(s, n) + s[n] * Weight(n)
  {
  }

  // ------------------------------------------------- complement, ++, --, negation

  lemma ComplementStep(x: Limb, y: Limb, w: nat)
    requires y == BASE - 1 - x
    ensures y * w + x * w + w == BASE * w
  {
    assert y * w + x * w == (y as int + x as int) * w;
  }

  lemma {:induction false} LowComplement(s: seq<Limb>, t: seq<Limb>, n: nat)
    requires n <= |s| && n <= |t| && forall k | 0 <= k < n :: t[k] == BASE - 1 - s[k]
    ensures Low(t, n) + Low(s, n) + 1 == Weight(n)
  {
    if n > 0 {
      LowComplement(s, t, n - 1);
      ComplementStep(s[n - 1], t[n - 1], Weight(n - 1));
    }
  }

  method Complement(b: array<Limb>) returns (r: array<Limb>)
    requires b.Length == WIDTH
    ensures fresh(r) && r.Length == WIDTH && Value(r[..]) == Weight(WIDTH) - 1 - Value(b[..])
  {
    r := new Limb[WIDTH](_ => 0);
    for i := 0 to WIDTH
      invariant forall k | 0 <= k < i :: r[k] == BASE - 1 - b[k]
    {
      r[i] := BASE - 1 - b[i];
    }
    LowComplement(b[..], r[..], WIDTH);
  }

  // t is s plus one, with a carry through the limbs below i.
  ghost predicate CarriedTo(s: seq<Limb>, t: seq<Limb>, i: nat) {
    && i < |s| == |t| && t[i] as int == s[i] as int + 1
    && (forall k | 0 <= k < i :: s[k] == BASE - 1 && t[k] == 0) && (forall k | i < k < |s| :: t[k] == s[k])
  }

  lemma {:induction false} CarryThrough(s: seq<Limb>, t: seq<Limb>, n: nat)
    requires n <= |s| && n <= |t| && forall k | 0 <= k < n :: s[k] == BASE - 1 && t[k] == 0
    ensures Low(s, n) + 1 == Weight(n) && Low(t, n) == 0
  {
    if n > 0 {
      CarryThrough(s, t, n - 1);
    }
  }

  lemma {:induction false} CarriedIsOneMore(s: seq<Limb>, t: seq<Limb>, i: nat, n: nat)
    requires CarriedTo(s, t, i) && i < n <= |s|
    ensures Low(t, n) == Low(s, n) + 1
  {
    if n == i + 1 {
      CarryThrough(s, t, i);
      AddWeights(s[i], 1, Weight(i));
    } else {
      CarriedIsOneMore(s, t, i, n - 1);
    }
  }

  method Increment(pn: array<Limb>)
    requires pn.Length == WIDTH
    modifies pn
    ensures Value(pn[..]) == (old(Value(pn[..])) + 1) % Weight(WIDTH)
  {
    hide Weight, Low;
    ghost var x := pn[..];
    var i := 0;
    while i < WIDTH
      invariant i <= WIDTH && (forall k | 0 <= k < i :: x[k] == BASE - 1 && pn[k] == 0)
      invariant forall k | i <= k < WIDTH :: pn[k] == x[k]
    {
      pn[i] := (pn[i] + 1) % BASE;
      if pn[i] != 0 {
        CarriedIsOneMore(x, pn[..], i, WIDTH);
        LowBound(pn[..], WIDTH);
        return;
      }
      i := i + 1;
    }
    CarryThrough(x, pn[..], WIDTH);
  }

  method Decrement(pn: array<Limb>)
    requires pn.Length == WIDTH
    modifies pn
    ensures Value(pn[..]) == (old(Value(pn[..])) - 1) % Weight(WIDTH)
  {
    hide Weight, Low;
    ghost var x := pn[..];
    var i := 0;
    while i < WIDTH
      invariant i <= WIDTH && (forall k | 0 <= k < i :: x[k] == 0 && pn[k] == BASE - 1)
      invariant forall k | i <= k < WIDTH :: pn[k] == x[k]
    {
      pn[i] := if pn[i] == 0 then BASE - 1 else pn[i] - 1;
      if pn[i] != BASE - 1 {
        CarriedIsOneMore(pn[..], x, i, WIDTH);
        LowBound(x, WIDTH);
        return;
      }
      i := i + 1;
    }
    CarryThrough(pn[..], x, WIDTH);
    DivisionUnique(-1, Weight(WIDTH), -1, Value(pn[..]));
  }

  method Negate(b: array<Limb>) returns (r: array<Limb>)
    requires b.Length == WIDTH
    ensures fresh(r) && r.Length == WIDTH && Value(r[..]) == (-(Value(b[..]) as int)) % Weight(WIDTH)
  {
    hide Weight, Value;
    r := Complement(b);
    ghost var v := Value(b[..]);
    Increment(r);
    ModuloMultiple(-(v as int), Weight(WIDTH), 1);
  }

  method SubAssign(pn: array<Limb>, b: array<Limb>)
    requires pn.Length == WIDTH && b.Length == WIDTH
    modifies pn
    ensures Value(pn[..]) == (old(Value(pn[..])) - old(Value(b[..]))) % Weight(WIDTH)
  {
    hide Weight, Value;
    ghost var x, y := Value(pn[..]), Value(b[..]);
    var minus := Negate(b);
    AddAssign(pn, minus);
    ModuloSum(-(y as int), x, Weight(WIDTH));
  }

  // --------------------------------------------------------------- comparison

  lemma {:induction false} TopDecides(s: seq<Limb>, t: seq<Limb>, i: nat, n: nat)
    requires i < n <= |s| && n <= |t| && s[i] < t[i] && forall k | i < k < n :: s[k] == t[k]
    ensures Low(s, n) < Low(t, n)
  {
    hide Weight;
    if n == i + 1 {
      LowBound(s, i);
      ProductMonotone(Weight(i), s[i] + 1, t[i]);
      AddWeights(s[i], 1, Weight(i));
    } else {
      TopDecides(s, t, i, n - 1);
    }
  }

  method CompareTo(a: array<Limb>, b: array<Limb>) returns (r: int)
    requires a.Length == WIDTH && b.Length == WIDTH
    ensures r < 0 <==> Value(a[..]) < Value(b[..])
    ensures r > 0 <==> Value(a[..]) > Value(b[..])
    ensures -1 <= r <= 1
  {
    hide Low;
    var i := WIDTH;
    while i > 0
      invariant 0 <= i <= WIDTH && forall k | i <= k < WIDTH :: a[k] == b[k]
    {
      i := i - 1;
      if a[i] < b[i] {
        TopDecides(a[..], b[..], i, WIDTH);
        return -1;
      }
      if a[i] > b[i] {
        TopDecides(b[..], a[..], i, WIDTH);
        return 1;
      }
    }
    assert a[..] == b[..];
    return 0;
  }

  // --------------------------------------------------------------- operator *=

  method MulAssign32(pn: array<Limb>, b32: Limb)
    requires pn.Length == WIDTH
    modifies pn
    ensures Value(pn[..]) == (old(Value(pn[..])) * b32) % Weight(WIDTH)
  {
    hide Weight, Low;
    ghost var x := pn[..];
    var carry: Limb := 0;
    ZeroLow(pn[..]);
    ZeroLow(x);
    for i := 0 to WIDTH
      invariant forall k | i <= k < WIDTH :: pn[k] == x[k]
      invariant Low(pn[..], i) + carry * Weight(i) == Low(x, i) * b32
    {
      WordProduct(carry, 0, b32, pn[i]);
      var n := carry + b32 * pn[i];
      assert n < WORD;
      CarryStep(Low(pn[..], i), carry, Weight(i), n, Low(x, i) * b32, b32 * pn[i]);
      RowStep(Low(x, i), x[i], Weight(i), b32);
      LowNext(x, i);
      WeightStep(i);
      var limb: Limb := n % BASE;
      LowWrite(pn[..], i, limb);
      ghost var before := pn[..];
      pn[i] := limb;
      assert pn[..] == before[i := limb];
      carry := n / BASE;
    }
    LowBound(pn[..], WIDTH);
    DivisionUnique(Low(x, WIDTH) * b32, Weight(WIDTH), carry, Low(pn[..], WIDTH));
  }

  // A product of limbs with two more limbs added fits into 64 bits.
  lemma WordProduct(c: Limb, d: Limb, x: Limb, y: Limb)
    ensures 0 <= c + d + x * y < WORD && (c + d + x * y) / BASE < BASE
  {
    ProductMonotone(x, y, BASE - 1);
    ProductMonotone(BASE - 1, x, BASE - 1);
  }

  lemma RowStep(low: nat, x: nat, w: nat, b: nat)
    ensures (low + x * w) * b == low * b + b * x * w
  {
    assert (low + x * w) * b == low * b + (x * w) * b;
    assert (x * w) * b == b * x * w;
  }

  // One row of the schoolbook product, cut off at the width: adds a * b, moved
  // up by j limbs.
  method MulRow(pn: array<Limb>, a: Limb, b: array<Limb>, j: nat)
    requires pn.Length == WIDTH && b.Length == WIDTH && j < WIDTH
    requires pn == b ==> forall k | 0 <= k < WIDTH :: pn[k] == 0
    modifies pn
    ensures pn == b ==> forall k | 0 <= k < WIDTH :: pn[k] == 0
    ensures Value(pn[..]) == (old(Value(pn[..])) + a * old(Value(b[..])) * Weight(j)) % Weight(WIDTH)
  {
    hide Weight, Low, RowHolds, Value;
    ghost var x, y := pn[..], b[..];
    var carry: Limb := 0;
    RowStarts(x, y, a, j);
    var i := 0;
    while i + j < WIDTH
      invariant 0 <= i <= WIDTH - j && (forall k | i + j <= k < WIDTH :: pn[k] == x[k])
      invariant b[..] == y && (pn == b ==> carry == 0 && forall k | 0 <= k < WIDTH :: pn[k] == 0)
      invariant RowHolds(pn[..], x, y, a, i, j, carry)
    {
      WordProduct(carry, pn[i + j], a, b[i]);
      var n := carry + pn[i + j] + a * b[i];
      assert n < WORD;
      var limb: Limb := n % BASE;
      RowNext(pn[..], x, y, a, i, j, carry, n, limb);
      ghost var before := pn[..];
      pn[i + j] := limb;
      assert pn[..] == before[i + j := limb];
      carry := n / BASE;
      i := i + 1;
    }
    RowEnds(x, a, y, j, carry, pn[..]);
  }

  // The row holds so far: limbs below i + j and the carry.
  ghost predicate RowHolds(p: seq<Limb>, x: seq<Limb>, y: seq<Limb>, a: nat, i: nat, j: nat, carry: nat)
    requires |p| == |x| == |y| == WIDTH && i + j <= WIDTH
  {
    Low(p, i + j) + carry * Weight(i + j) == Low(x, i + j) + a * Low(y, i) * Weight(j)
  }

  lemma RowNext(p: seq<Limb>, x: seq<Limb>, y: seq<Limb>, a: Limb, i: nat, j: nat, carry: nat, n: nat, limb: Limb)
    requires |p| == |x| == |y| == WIDTH && i + j < WIDTH && RowHolds(p, x, y, a, i, j, carry)
    requires n == carry + x[i + j] + a * y[i] && limb == n % BASE
    ensures RowHolds(p[i + j := limb], x, y, a, i + 1, j, n / BASE)
    ensures x[i + j] == 0 && y[i] == 0 && carry == 0 ==> limb == 0 && n / BASE == 0
  {
    hide Weight, Low;
    CarryStep(Low(p, i + j), carry, Weight(i + j), n, Low(x, i + j) + a * Low(y, i) * Weight(j), n - carry);
    WeightAdd(i, j);
    RowAdds(x[i + j], a, Low(y, i), y[i], Weight(i), Weight(j));
    LowNext(x, i + j);
    LowNext(y, i);
    WeightStep(i + j);
    LowWrite(p, i + j, limb);
  }

  lemma RowStarts(x: seq<Limb>, y: seq<Limb>, a: nat, j: nat)
    requires |x| == |y| == WIDTH && j <= WIDTH
    ensures RowHolds(x, x, y, a, 0, j, 0)
  {
  }

  lemma RowAdds(x: nat, a: nat, low: nat, y: nat, wi: nat, wj: nat)
    ensures (x + a * y) * (wi * wj) == x * (wi * wj) + (a * (low + y * wi) * wj - a * low * wj)
  {
    assert (x + a * y) * (wi * wj) == x * (wi * wj) + a * y * (wi * wj);
    assert a * (low + y * wi) == a * low + a * (y * wi);
    assert (a * low + a * (y * wi)) * wj == a * low * wj + a * (y * wi) * wj;
    assert a * (y * wi) * wj == a * y * (wi * wj);
  }

  // A value splits at any limb.
  lemma {:induction false} LowSplit(s: seq<Limb>, k: nat, n: nat) returns (h: nat)
    requires k <= n <= |s|
    ensures Low(s, n) == Low(s, k) + h * Weight(k)
  {
    hide Weight;
    h := 0;
    if k < n {
      var g := LowSplit(s, k, n - 1);
      LowNext(s, n - 1);
      WeightAdd(n - 1 - k, k);
      h := g + s[n - 1] * Weight(n - 1 - k);
      Regrouped(g, s[n - 1], Weight(n - 1 - k), Weight(k));
    }
  }

  lemma Regrouped(g: nat, x: nat, v: nat, w: nat)
    ensures (g + x * v) * w == g * w + x * (v * w)
  {
    assert (g + x * v) * w == g * w + (x * v) * w;
    assert (x * v) * w == x * (v * w);
  }

  lemma RowEnds(x: seq<Limb>, a: nat, y: seq<Limb>, j: nat, carry: nat, z: seq<Limb>)
    requires |x| == WIDTH && |y| == WIDTH && |z| == WIDTH && j <= WIDTH
    requires RowHolds(z, x, y, a, WIDTH - j, j, carry)
    ensures Value(z) == (Value(x) + a * Value(y) * Weight(j)) % Weight(WIDTH)
  {
    hide Weight, Low;
    var h := LowSplit(y, WIDTH - j, WIDTH);
    WeightAdd(WIDTH - j, j);
    CutOff(a, Low(y, WIDTH - j), h, Weight(WIDTH - j), Weight(j));
    LowBound(z, WIDTH);
    SameModulo(Low(z, WIDTH), carry, Weight(WIDTH), Low(x, WIDTH) + a * Low(y, WIDTH - j) * Weight(j), a * h);
  }

  lemma SameModulo(z: nat, carry: nat, m: nat, t: nat, k: nat)
    requires z < m && z + carry * m == t
    ensures z == (t + k * m) % m
  {
    ModuloMultiple(t, m, k);
    DivisionUnique(t, m, carry, z);
  }

  lemma CutOff(a: nat, low: nat, h: nat, w: nat, v: nat)
    ensures a * (low + h * w) * v == a * low * v + (a * h) * (w * v)
  {
    assert a * (low + h * w) == a * low + a * (h * w);
    assert (a * low + a * (h * w)) * v == a * low * v + a * (h * w) * v;
    assert a * (h * w) * v == (a * h) * (w * v);
  }

  // Multiplies in place.  The number is set to zero before the operand is read,
  // so multiplying a number by itself this way gives zero.
  method MulAssign(pn: array<Limb>, b: array<Limb>)
    requires pn.Length == WIDTH && b.Length == WIDTH
    modifies pn
    ensures Value(pn[..]) == if pn == b then 0 else (old(Value(pn[..])) * old(Value(b[..]))) % Weight(WIDTH)
  {
    hide Weight, Low, Value;
    ghost var x := pn[..];
    var a := new Limb[WIDTH](i requires 0 <= i < WIDTH && pn.Length == WIDTH reads pn => pn[i]);
    assert a[..] == x;
    SetZero(pn);
    ghost var y := Value(b[..]);
    ZeroLow(x);
    for j := 0 to WIDTH
      invariant a[..] == x && Value(b[..]) == y && (pn == b ==> forall k | 0 <= k < WIDTH :: pn[k] == 0)
      invariant Value(pn[..]) == (Low(x, j) * y) % Weight(WIDTH)
    {
      ghost var before := Value(pn[..]);
      MulRow(pn, a[j], b, j);
      LowNext(x, j);
      ModuloSum(Low(x, j) * y, x[j] * y * Weight(j), Weight(WIDTH));
      ProductRow(Low(x, j), x[j], Weight(j), y);
    }
    WholeValue(x);
  }

  lemma WholeValue(x: seq<Limb>)
    requires |x| == WIDTH
    ensures Value(x) == Low(x, WIDTH)
  {
  }

  lemma ProductRow(low: nat, x: nat, w: nat, y: nat)
    ensures (low + x * w) * y == low * y + x * y * w
  {
    assert (low + x * w) * y == low * y + (x * w) * y;
    assert (x * w) * y == x * y * w;
  }

  lemma {:induction false} LowOfZeros(s: seq<Limb>, n: nat)
    requires n <= |s| && forall k | 0 <= k < n :: s[k] == 0
    ensures Low(s, n) == 0
  {
    if n > 0 {
      LowOfZeros(s, n - 1);
    }
  }

  method SetZero(pn: array<Limb>)
    requires pn.Length == WIDTH
    modifies pn
    ensures (forall k | 0 <= k < WIDTH :: pn[k] == 0) && Value(pn[..]) == 0
  {
    for i := 0 to WIDTH
      invariant forall k | 0 <= k < i :: pn[k] == 0
    {
      pn[i] := 0;
    }
    LowOfZeros(pn[..], WIDTH);
  }

  // -------------------------------------------------------------- operator <<=

  // Bitwise or of two natural numbers.
  function Or(x: nat, y: nat): nat {
    if x == 0 && y == 0 then 0
    else 2 * Or(x / 2, y / 2) + if x % 2 == 1 || y % 2 == 1 then 1 else 0
  }

  // Or adds where the operands share no bit.
  lemma {:induction false} OrDisjoint(x: nat, y: nat, s: nat)
    requires x % Pow2(s) == 0 && y < Pow2(s)
    ensures Or(x, y) == x + y == Or(y, x)
  {
    if s == 0 {
      OrZero(x);
    } else {
      HalfMultiple(x, Pow2(s - 1));
      OrDisjoint(x / 2, y / 2, s - 1);
    }
  }

  lemma {:induction false} OrZero(x: nat)
    ensures Or(x, 0) == x == Or(0, x)
  {
    if x > 0 {
      OrZero(x / 2);
    }
  }

  lemma HalfMultiple(x: nat, p: nat)
    requires p > 0 && x % (2 * p) == 0
    ensures x % 2 == 0 && (x / 2) % p == 0
  {
    var q := x / (2 * p);
    assert x == 2 * (q * p) by {
      assert x == q * (2 * p);
      assert q * (2 * p) == 2 * (q * p);
    }
    DivisionUnique(q * p, p, q, 0);
  }

  // Shifts of a 32-bit limb.
  function Shr(x: Limb, n: nat): Limb {
    Divided(x, Pow2(n))
  }

  function Shl(x: Limb, n: nat): Limb {
    Multiplied(x, Pow2(n))
  }

  function Divided(x: Limb, d: nat): Limb
    requires d > 0
  {
    QuotientAtMost(x, d);
    x / d
  }

  function Multiplied(x: Limb, d: nat): Limb {
    x * d % BASE
  }

  // A limb moved up by s bits: what stays in the limb and what leaves it.
  lemma LimbUp(x: Limb, s: nat)
    requires s < 32
    ensures x * Pow2(s) == Shr(x, 32 - s) * BASE + Shl(x, s)
    ensures Shr(x, 32 - s) < Pow2(s) && Shl(x, s) % Pow2(s) == 0
    ensures Or(Shr(x, 32 - s), Shl(x, s)) == Shr(x, 32 - s) as int + Shl(x, s) as int < BASE
  {
    BaseIsPow2();
    Pow2Add(s, 32 - s);
    hide Pow2, Or, Divided, Multiplied;
    LimbUpBy(x, Pow2(s), Pow2(32 - s));
    OrDisjoint(Shl(x, s), Shr(x, 32 - s), s);
  }

  lemma LimbUpBy(x: Limb, p: nat, c: nat)
    requires p * c == BASE && p > 0 && c > 0
    ensures x * p == Divided(x, c) * BASE + Multiplied(x, p)
    ensures Divided(x, c) < p && Multiplied(x, p) % p == 0 && Multiplied(x, p) as nat == (x % c) * p
    ensures Divided(x, c) as int + Multiplied(x, p) as int < BASE
  {
    var q, r := x / c, x % c;
    LimbUpParts(x, p, c, q, r);
    DivisionUnique(x * p, BASE, q, r * p);
    DivisionUnique(r * p, p, r, 0);
    FitsLimb(p, c, q, r);
  }

  lemma FitsLimb(p: nat, c: nat, q: nat, r: nat)
    requires p * c == BASE && q < p && r < c
    ensures q + r * p < BASE
  {
    ProductMonotone(p, r + 1, c);
  }

  lemma LimbUpParts(x: Limb, p: nat, c: nat, q: nat, r: nat)
    requires p * c == BASE && x == q * c + r && r < c
    ensures x * p == q * BASE + r * p && r * p < BASE && q < p
  {
    assert x * p == q * (c * p) + r * p;
    ProductMonotone(p, r + 1, c);
    if q >= p {
      ProductMonotone(c, p, q);
      assert false;
    }
  }

  // What leaves limb i - 1 for limb i.
  ghost function Spill(a: seq<Limb>, s: nat, i: nat): Limb
    requires i <= |a| && s <= 32
  {
    if i == 0 then 0 else Shr(a[i - 1], 32 - s)
  }

  // The first i limbs of `a` have been moved up by k limbs and s bits.
  ghost predicate MovedUp(p: seq<Limb>, a: seq<Limb>, s: nat, k: nat, i: nat)
    requires |p| == |a| == WIDTH && s < 32 && i + k <= WIDTH
  {
    && Low(p, i + k) + Spill(a, s, i) * Weight(i + k) == Low(a, i) * Pow2(s) * Weight(k)
    && (i + k < WIDTH ==> p[i + k] == Spill(a, s, i))
    && (forall t | i + k < t < WIDTH :: p[t] == 0)
  }

  // One round: the part of limb i that leaves goes one up, the rest joins what
  // came from below.
  function UpRound(p: seq<Limb>, x: Limb, s: nat, at: nat): (t: seq<Limb>)
    requires |p| == WIDTH && s < 32
    ensures |t| == WIDTH
  {
    var q := if at + 1 < WIDTH && s != 0 then p[at + 1 := OrLimb(p[at + 1], Shr(x, 32 - s))] else p;
    if at < WIDTH then q[at := OrLimb(q[at], Shl(x, s))] else q
  }

  function OrLimb(x: Limb, y: Limb): Limb {
    Or(x, y) % BASE
  }

  lemma SpillWithoutShift(x: Limb)
    ensures Shr(x, 32) == 0
  {
    BaseIsPow2();
  }

  lemma UpRoundIs(p: seq<Limb>, a: seq<Limb>, s: nat, k: nat, i: nat)
    requires |p| == |a| == WIDTH && s < 32 && i + k < WIDTH && MovedUp(p, a, s, k, i)
    ensures var t := UpRound(p, a[i], s, i + k);
            && t[i + k] as int == Spill(a, s, i) as int + Shl(a[i], s) as int
            && (i + k + 1 < WIDTH ==> t[i + k + 1] == Spill(a, s, i + 1))
            && (forall j | 0 <= j < WIDTH && j != i + k && j != i + k + 1 :: t[j] == p[j])
  {
    hide Low, Shr, Shl, Or, Weight, Pow2;
    SpillWithoutShift(a[i]);
    OrZero(Shr(a[i], 32 - s));
    JoinsBelow(a, s, i);
  }

  // What came from below and what stays share no bit.
  lemma JoinsBelow(a: seq<Limb>, s: nat, i: nat)
    requires i < |a| && s < 32
    ensures OrLimb(Spill(a, s, i), Shl(a[i], s)) as int == Spill(a, s, i) as int + Shl(a[i], s) as int
  {
    hide Shr, Shl, Or, Pow2;
    LimbUp(a[i], s);
    SpillSmall(a, s, i);
    OrDisjoint(Shl(a[i], s), Spill(a, s, i), s);
    BelowBase(Shl(a[i], s), Spill(a, s, i), s);
    WithinLimb(Spill(a, s, i), Shl(a[i], s));
  }

  lemma SpillSmall(a: seq<Limb>, s: nat, i: nat)
    requires i <= |a| && s < 32
    ensures Spill(a, s, i) < Pow2(s)
  {
    hide Shr, Shl, Or, Pow2;
    if i > 0 {
      LimbUp(a[i - 1], s);
    }
  }

  lemma WithinLimb(x: Limb, y: Limb)
    requires Or(x, y) < BASE
    ensures OrLimb(x, y) as nat == Or(x, y)
  {
    hide Or;
  }

  lemma BelowBase(x: Limb, y: nat, s: nat)
    requires s <= 32 && x % Pow2(s) == 0 && y < Pow2(s)
    ensures x + y < BASE
  {
    hide Pow2;
    BaseIsPow2();
    Pow2Add(s, 32 - s);
    BelowProduct(x, y, Pow2(s), Pow2(32 - s));
  }

  lemma BelowProduct(x: Limb, y: nat, p: nat, c: nat)
    requires 0 < p && p * c == BASE && x % p == 0 && y < p
    ensures x + y < BASE
  {
    var q := x / p;
    assert x == q * p;
    if q >= c {
      ProductMonotone(p, c, q);
      assert false;
    }
    FitsLimb(p, c, y, q);
  }

  lemma MovedUpNext(p: seq<Limb>, a: seq<Limb>, s: nat, k: nat, i: nat)
    requires |p| == |a| == WIDTH && s < 32 && i + k < WIDTH && MovedUp(p, a, s, k, i)
    ensures MovedUp(UpRound(p, a[i], s, i + k), a, s, k, i + 1)
  {
    hide Low, Shr, Shl, Or, OrLimb, Weight, Pow2, UpRound;
    UpRoundIs(p, a, s, k, i);
    LimbUp(a[i], s);
    var t := UpRound(p, a[i], s, i + k);
    LowSame(t, p, i + k);
    LowNext(t, i + k);
    LowNext(a, i);
    WeightAdd(i, k);
    WeightStep(i + k);
    UpArithmetic(Low(p, i + k), Spill(a, s, i), Shl(a[i], s), Shr(a[i], 32 - s), a[i], Low(a, i), Pow2(s), Weight(i), Weight(k));
  }

  lemma UpArithmetic(low: nat, h: nat, stay: nat, leave: nat, x: nat, la: nat, p: nat, wi: nat, wk: nat)
    requires low + h * (wi * wk) == la * p * wk && x * p == leave * BASE + stay
    ensures low + (h + stay) * (wi * wk) + leave * (BASE * (wi * wk)) == (la + x * wi) * p * wk
  {
    var w := wi * wk;
    assert (h + stay) * w == h * w + stay * w;
    assert leave * (BASE * w) == leave * BASE * w;
    assert (leave * BASE + stay) * w == leave * BASE * w + stay * w;
    assert (la + x * wi) * p * wk == la * p * wk + x * wi * p * wk by {
      assert (la + x * wi) * p == la * p + x * wi * p;
      assert (la * p + x * wi * p) * wk == la * p * wk + x * wi * p * wk;
    }
    assert x * wi * p * wk == x * p * w;
  }

  method ShlAssign(pn: array<Limb>, shift: nat)
    requires pn.Length == WIDTH
    modifies pn
    ensures Value(pn[..]) == (old(Value(pn[..])) * Pow2(shift)) % Weight(WIDTH)
  {
    hide Low, Value, Weight, Pow2, MovedUp, UpRound;
    ghost var a0 := pn[..];
    var a := new Limb[WIDTH](i requires 0 <= i < WIDTH && pn.Length == WIDTH reads pn => pn[i]);
    assert a[..] == a0;
    SetZero(pn);
    var k, s := shift / 32, shift % 32;
    if k <= WIDTH {
      MovedUpStarts(pn[..], a0, s, k);
    }
    for i := 0 to WIDTH
      invariant a[..] == a0
      invariant k <= WIDTH ==> MovedUp(pn[..], a0, s, k, if i + k <= WIDTH then i else WIDTH - k)
      invariant k > WIDTH ==> Value(pn[..]) == 0
    {
      if i + k < WIDTH {
        MovedUpNext(pn[..], a0, s, k, i);
      }
      UpRoundBeyond(pn[..], a[i], s, i + k);
      ShlRound(pn, a[i], s, i + k);
    }
    if k <= WIDTH {
      MovedUpEnds(pn[..], a0, s, k);
    }
    ShiftSplits(k, s);
    if k > WIDTH {
      AllMovedOut(Value(a0), k, s);
    }
  }

  // The two or-assignments of a round.
  method ShlRound(pn: array<Limb>, x: Limb, s: nat, at: nat)
    requires pn.Length == WIDTH && s < 32
    modifies pn
    ensures pn[..] == UpRound(old(pn[..]), x, s, at)
  {
    hide Or, Shr, Shl;
    if at + 1 < WIDTH && s != 0 {
      pn[at + 1] := OrLimb(pn[at + 1], Shr(x, 32 - s));
    }
    if at < WIDTH {
      pn[at] := OrLimb(pn[at], Shl(x, s));
    }
  }

  lemma UpRoundBeyond(p: seq<Limb>, x: Limb, s: nat, at: nat)
    requires |p| == WIDTH && s < 32
    ensures at >= WIDTH ==> UpRound(p, x, s, at) == p
  {
  }

  lemma MovedUpStarts(p: seq<Limb>, a: seq<Limb>, s: nat, k: nat)
    requires |p| == |a| == WIDTH && s < 32 && k <= WIDTH && forall t | 0 <= t < WIDTH :: p[t] == 0
    ensures MovedUp(p, a, s, k, 0)
  {
    hide Weight, Pow2;
    LowOfZeros(p, k);
    assert 0 * Pow2(s) * Weight(k) == 0;
  }

  lemma MovedUpEnds(p: seq<Limb>, a: seq<Limb>, s: nat, k: nat)
    requires |p| == |a| == WIDTH && s < 32 && k <= WIDTH && MovedUp(p, a, s, k, WIDTH - k)
    ensures Value(p) == (Value(a) * (Pow2(s) * Weight(k))) % Weight(WIDTH)
  {
    hide Low, Weight, Pow2, Shr;
    var h := LowSplit(a, WIDTH - k, WIDTH);
    WeightAdd(WIDTH - k, k);
    LowBound(p, WIDTH);
    var low := Low(a, WIDTH - k);
    CutOff(Pow2(s), low, h, Weight(WIDTH - k), Weight(k));
    SameModulo(Low(p, WIDTH), Spill(a, s, WIDTH - k), Weight(WIDTH), low * Pow2(s) * Weight(k), Pow2(s) * h);
    Reorder(low, Pow2(s), Weight(k));
    Reorder(Value(a), Pow2(s), Weight(k));
  }

  lemma Reorder(x: nat, p: nat, w: nat)
    ensures x * p * w == p * x * w == x * (p * w)
  {
  }

  lemma ShiftSplits(k: nat, s: nat)
    ensures Pow2(32 * k + s) == Pow2(s) * Weight(k)
  {
    WeightIsPow2(k);
    Pow2Add(s, 32 * k);
  }

  lemma AllMovedOut(v: nat, k: nat, s: nat)
    requires k >= WIDTH
    ensures (v * (Pow2(s) * Weight(k))) % Weight(WIDTH) == 0
  {
    hide Pow2, Weight;
    WeightAdd(k - WIDTH, WIDTH);
    var q := v * (Pow2(s) * Weight(k - WIDTH));
    assert v * (Pow2(s) * (Weight(k - WIDTH) * Weight(WIDTH))) == q * Weight(WIDTH);
    DivisionUnique(q * Weight(WIDTH), Weight(WIDTH), q, 0);
  }

  // -------------------------------------------------------------- operator >>=

  // A limb moved down by s bits: what stays, and what goes to the limb below.
  lemma LimbDown(x: Limb, s: nat)
    requires s < 32
    ensures x == Shr(x, s) * Pow2(s) + x % Pow2(s)
    ensures Shr(x, s) < Pow2(32 - s) && Shl(x, 32 - s) % Pow2(32 - s) == 0
    ensures Shl(x, 32 - s) as nat == (x % Pow2(s)) * Pow2(32 - s)
    ensures Pow2(32 - s) * Pow2(s) == BASE
  {
    hide Pow2, Multiplied;
    BaseIsPow2();
    Pow2Add(32 - s, s);
    LimbUpBy(x, Pow2(32 - s), Pow2(s));
  }

  // Limbs k to i of `a` have been moved down by k limbs and s bits.
  ghost predicate MovedDown(p: seq<Limb>, a: seq<Limb>, s: nat, k: nat, i: nat)
    requires |p| == |a| == WIDTH && s < 32 && k < i <= WIDTH
  {
    && Low(a[k..], i - k) == Pow2(s) * Low(p, i - k) + a[k] % Pow2(s)
    && p[i - k - 1] == Shr(a[i - 1], s)
    && (forall t | i - k <= t < WIDTH :: p[t] == 0)
  }

  function DownRound(p: seq<Limb>, x: Limb, s: nat, i: nat, k: nat): (t: seq<Limb>)
    requires |p| == WIDTH && s < 32 && i < WIDTH
    ensures |t| == WIDTH
  {
    var q := if i >= k + 1 && s != 0 then p[i - k - 1 := OrLimb(p[i - k - 1], Shl(x, 32 - s))] else p;
    if i >= k then q[i - k := OrLimb(q[i - k], Shr(x, s))] else q
  }

  lemma ZeroOr(x: Limb)
    ensures OrLimb(0, x) == x && OrLimb(x, 0) == x
  {
    OrZero(x);
  }

  lemma DownRoundIs(p: seq<Limb>, a: seq<Limb>, s: nat, k: nat, i: nat)
    requires |p| == |a| == WIDTH && s < 32 && k < i < WIDTH && MovedDown(p, a, s, k, i)
    ensures var t := DownRound(p, a[i], s, i, k);
            && t[i - k - 1] as int == p[i - k - 1] as int + Shl(a[i], 32 - s) as int
            && t[i - k] == Shr(a[i], s)
            && (forall j | 0 <= j < WIDTH && j != i - k && j != i - k - 1 :: t[j] == p[j])
  {
    hide Low, Shr, Shl, Or, OrLimb, Pow2;
    ZeroOr(Shr(a[i], s));
    JoinsAbove(a[i - 1], a[i], s);
    NothingLeaves(a[i]);
  }

  lemma NothingLeaves(x: Limb)
    ensures Shl(x, 32) == 0
  {
    BaseIsPow2();
    DivisionUnique(x * BASE, BASE, x, 0);
  }

  lemma JoinsAbove(x: Limb, y: Limb, s: nat)
    requires s < 32
    ensures OrLimb(Shr(x, s), Shl(y, 32 - s)) as int == Shr(x, s) as int + Shl(y, 32 - s) as int
  {
    hide Shr, Shl, Or, Pow2;
    LimbDown(x, s);
    LimbDown(y, s);
    OrDisjoint(Shl(y, 32 - s), Shr(x, s), 32 - s);
    BelowBase(Shl(y, 32 - s), Shr(x, s), 32 - s);
    WithinLimb(Shr(x, s), Shl(y, 32 - s));
  }

  lemma MovedDownNext(p: seq<Limb>, a: seq<Limb>, s: nat, k: nat, i: nat)
    requires |p| == |a| == WIDTH && s < 32 && k < i < WIDTH && MovedDown(p, a, s, k, i)
    ensures MovedDown(DownRound(p, a[i], s, i, k), a, s, k, i + 1)
  {
    hide Low, Shr, Shl, Or, OrLimb, Weight, Pow2, DownRound;
    DownRoundIs(p, a, s, k, i);
    LimbDown(a[i], s);
    var t, n := DownRound(p, a[i], s, i, k), i - k;
    LowSame(t, p, n - 1);
    LowNext(t, n - 1);
    LowNext(p, n - 1);
    LowNext(t, n);
    LowNext(a[k..], n);
    WeightStep(n - 1);
    DownArithmetic(Low(p, n), Shl(a[i], 32 - s), a[i] % Pow2(s), Shr(a[i], s), a[i], Pow2(s), Pow2(32 - s), Weight(n - 1));
    AddWeights(p[n - 1], Shl(a[i], 32 - s), Weight(n - 1));
  }

  lemma DownArithmetic(low: nat, l: nat, r: nat, q: nat, x: nat, p: nat, c: nat, w: nat)
    requires l == r * c && c * p == BASE && x == q * p + r
    ensures p * (low + l * w + q * (BASE * w)) == p * low + x * (BASE * w)
  {
    assert p * (low + l * w + q * (BASE * w)) == p * low + p * (l * w) + p * (q * (BASE * w));
    assert p * (r * c * w) == r * (c * p) * w;
    assert r * BASE * w == r * (BASE * w);
    assert p * (q * (BASE * w)) == (q * p) * (BASE * w);
    assert (q * p + r) * (BASE * w) == (q * p) * (BASE * w) + r * (BASE * w);
  }

  lemma MovedDownStarts(p: seq<Limb>, a: seq<Limb>, s: nat, k: nat)
    requires |p| == |a| == WIDTH && s < 32 && k < WIDTH && forall t | 0 <= t < WIDTH :: p[t] == 0
    ensures MovedDown(DownRound(p, a[k], s, k, k), a, s, k, k + 1)
  {
    hide Low, Shr, Or, OrLimb, Weight, Pow2;
    ZeroOr(Shr(a[k], s));
    LimbDown(a[k], s);
    var t := DownRound(p, a[k], s, k, k);
    FirstLimb(t);
    FirstLimb(a[k..]);
    assert Shr(a[k], s) * Pow2(s) == Pow2(s) * Shr(a[k], s);
  }

  lemma FirstLimb(s: seq<Limb>)
    requires |s| > 0
    ensures Low(s, 1) == s[0]
  {
    assert Low(s, 1) == Low(s, 0) + s[0] * Weight(0);
  }

  lemma {:induction false} LowAbove(a: seq<Limb>, k: nat, n: nat)
    requires k <= n <= |a|
    ensures Low(a, n) == Low(a, k) + Low(a[k..], n - k) * Weight(k)
  {
    hide Weight;
    if k < n {
      LowAbove(a, k, n - 1);
      LowNext(a, n - 1);
      LowNext(a[k..], n - 1 - k);
      WeightAdd(n - 1 - k, k);
      Regrouped(Low(a[k..], n - 1 - k), a[n - 1], Weight(n - 1 - k), Weight(k));
    }
  }

  lemma {:induction false} ZerosAbove(p: seq<Limb>, k: nat, n: nat)
    requires k <= n <= |p| && forall t | k <= t < n :: p[t] == 0
    ensures Low(p, n) == Low(p, k)
  {
    if k < n {
      ZerosAbove(p, k, n - 1);
    }
  }

  lemma MovedDownEnds(p: seq<Limb>, a: seq<Limb>, s: nat, k: nat)
    requires |p| == |a| == WIDTH && s < 32 && k < WIDTH && MovedDown(p, a, s, k, WIDTH)
    ensures Value(p) == Value(a) / (Pow2(s) * Weight(k))
  {
    hide Low, Weight, Pow2, Shr;
    ZerosAbove(p, WIDTH - k, WIDTH);
    LowAbove(a, k, WIDTH);
    LowBound(a, k);
    var seg, w, q := Low(a[k..], WIDTH - k), Weight(k), Pow2(s);
    DivisionUnique(Value(a), w, seg, Low(a, k));
    DivisionUnique(seg, q, Value(p), a[k] % q);
    QuotientOfQuotient(Value(a), w, q);
    assert w * q == q * w;
  }

  method ShrAssign(pn: array<Limb>, shift: nat)
    requires pn.Length == WIDTH
    modifies pn
    ensures Value(pn[..]) == old(Value(pn[..])) / Pow2(shift)
  {
    hide Low, Value, Weight, Pow2, MovedDown, DownRound;
    ghost var a0 := pn[..];
    var a := new Limb[WIDTH](i requires 0 <= i < WIDTH && pn.Length == WIDTH reads pn => pn[i]);
    assert a[..] == a0;
    SetZero(pn);
    var k, s := shift / 32, shift % 32;
    for i := 0 to WIDTH
      invariant a[..] == a0
      invariant i <= k ==> (forall t | 0 <= t < WIDTH :: pn[t] == 0) && Value(pn[..]) == 0
      invariant k < i ==> MovedDown(pn[..], a0, s, k, i)
    {
      if i == k {
        MovedDownStarts(pn[..], a0, s, k);
      } else if i > k {
        MovedDownNext(pn[..], a0, s, k, i);
      }
      DownRoundBelow(pn[..], a[i], s, i, k);
      ShrRound(pn, a[i], s, i, k);
    }
    ShiftSplits(k, s);
    if k < WIDTH {
      MovedDownEnds(pn[..], a0, s, k);
    } else {
      AllMovedDown(a0, k, s);
    }
  }

  method ShrRound(pn: array<Limb>, x: Limb, s: nat, i: nat, k: nat)
    requires pn.Length == WIDTH && s < 32 && i < WIDTH
    modifies pn
    ensures pn[..] == DownRound(old(pn[..]), x, s, i, k)
  {
    hide Or, Shr, Shl;
    if i >= k + 1 && s != 0 {
      pn[i - k - 1] := OrLimb(pn[i - k - 1], Shl(x, 32 - s));
    }
    if i >= k {
      pn[i - k] := OrLimb(pn[i - k], Shr(x, s));
    }
  }

  lemma DownRoundBelow(p: seq<Limb>, x: Limb, s: nat, i: nat, k: nat)
    requires |p| == WIDTH && s < 32 && i < WIDTH
    ensures i < k ==> DownRound(p, x, s, i, k) == p
  {
  }

  lemma AllMovedDown(a: seq<Limb>, k: nat, s: nat)
    requires |a| == WIDTH && k >= WIDTH
    ensures Value(a) / (Pow2(s) * Weight(k)) == 0
  {
    hide Low, Pow2, Weight;
    LowBound(a, WIDTH);
    WeightAdd(k - WIDTH, WIDTH);
    ProductMonotone(Weight(WIDTH), 1, Weight(k - WIDTH));
    ProductMonotone(Weight(k), 1, Pow2(s));
    assert Weight(k - WIDTH) * Weight(WIDTH) == Weight(WIDTH) * Weight(k - WIDTH);
    assert Pow2(s) * Weight(k) == Weight(k) * Pow2(s);
    DivisionUnique(Value(a), Pow2(s) * Weight(k), 0, Value(a));
  }

  // ---------------------------------------------------------------------- bits

  // A value has r bits.
  ghost predicate HasBits(v: nat, r: nat) {
    if r == 0 then v == 0 else Pow2(r - 1) <= v < Pow2(r)
  }

  predicate BitSet(x: Limb, n: nat) {
    Shr(x, n) % 2 == 1
  }

  // A limb below 2^(n + 1) is below 2^n unless bit n is set.
  lemma TopBit(x: Limb, n: nat)
    requires x < Pow2(n + 1)
    ensures BitSet(x, n) <==> x >= Pow2(n)
  {
    TopQuotient(x, Pow2(n));
  }

  lemma TopQuotient(x: Limb, p: nat)
    requires 0 < p && x < 2 * p
    ensures Divided(x, p) as int == if x >= p then 1 else 0
  {
    if x >= p {
      DivisionUnique(x, p, 1, x - p);
    } else {
      DivisionUnique(x, p, 0, x);
    }
  }

  lemma BitsOfTop(a: seq<Limb>, pos: nat, n: nat)
    requires |a| == WIDTH && pos < WIDTH && (forall t | pos < t < WIDTH :: a[t] == 0)
    requires Pow2(n) <= a[pos] < Pow2(n + 1)
    ensures HasBits(Value(a), 32 * pos + n + 1)
  {
    hide Low, Weight, Pow2;
    ZerosAbove(a, pos + 1, WIDTH);
    LowNext(a, pos);
    LowBound(a, pos);
    ShiftSplits(pos, n);
    ShiftSplits(pos, n + 1);
    TopRange(Low(a, pos), a[pos], Weight(pos), Pow2(n), Pow2(n + 1));
  }

  lemma TopRange(low: nat, x: nat, w: nat, p: nat, q: nat)
    requires low < w && p <= x < q
    ensures p * w <= low + x * w < q * w
  {
    ProductMonotone(w, p, x);
    ProductMonotone(w, x + 1, q);
  }

  method Bits(a: array<Limb>) returns (r: nat)
    requires a.Length == WIDTH
    ensures r <= 256 && HasBits(Value(a[..]), r)
  {
    hide Low, Weight, Pow2, BitSet, HasBits;
    var pos := WIDTH;
    while pos > 0
      invariant 0 <= pos <= WIDTH && forall t | pos <= t < WIDTH :: a[t] == 0
    {
      pos := pos - 1;
      if a[pos] != 0 {
        BaseIsPow2();
        var nbits := 31;
        while nbits > 0
          invariant 0 <= nbits <= 31 && a[pos] < Pow2(nbits + 1)
        {
          TopBit(a[pos], nbits);
          if BitSet(a[pos], nbits) {
            BitsOfTop(a[..], pos, nbits);
            return 32 * pos + nbits + 1;
          }
          nbits := nbits - 1;
        }
        PowersOfOne();
        BitsOfTop(a[..], pos, 0);
        return 32 * pos + 1;
      }
    }
    LowOfZeros(a[..], WIDTH);
    NoBits();
    return 0;
  }

  lemma PowersOfOne()
    ensures Pow2(0) == 1 && Pow2(1) == 2
  {
  }

  lemma NoBits()
    ensures HasBits(0, 0)
  {
  }

  // --------------------------------------------------------------- operator /=

  function BitsBelow(t: nat, j: nat): nat {
    if t <= 32 * j then 0 else if t >= 32 * j + 32 then 32 else t - 32 * j
  }

  // The lowest t bits are zero.
  ghost predicate ZeroBits(s: seq<Limb>, t: nat) {
    forall j | 0 <= j < |s| :: s[j] % Pow2(BitsBelow(t, j)) == 0
  }

  lemma {:induction false} FewerBits(x: nat, a: nat, b: nat)
    requires a <= b && x % Pow2(b) == 0
    ensures x % Pow2(a) == 0
  {
    Pow2Add(a, b - a);
    hide Pow2;
    var q := x / Pow2(b);
    assert x == q * Pow2(b);
    assert q * (Pow2(a) * Pow2(b - a)) == (q * Pow2(b - a)) * Pow2(a);
    DivisionUnique(x, Pow2(a), q * Pow2(b - a), 0);
  }

  lemma {:induction false} LowReplace(s: seq<Limb>, j: nat, y: Limb, n: nat)
    requires j < n <= |s|
    ensures Low(s[j := y], n) == Low(s, n) + y * Weight(j) - s[j] * Weight(j)
  {
    if j == n - 1 {
      LowSame(s[j := y], s, n - 1);
    } else {
      LowReplace(s, j, y, n - 1);
    }
  }

  // Setting a bit that is zero, together with all below it.
  lemma BitAdds(x: Limb, e: nat)
    requires e < 32 && x % Pow2(e + 1) == 0
    ensures Pow2(e) < BASE && OrLimb(x, Pow2(e)) as int == x + Pow2(e)
    ensures (x + Pow2(e)) % Pow2(e) == 0
  {
    BaseIsPow2();
    Pow2Monotone(e + 1, 32);
    assert Pow2(e) < Pow2(e + 1);
    hide Pow2, Or;
    OrDisjoint(x, Pow2(e), e + 1);
    BelowBase(x, Pow2(e), e + 1);
    WithinLimb(x, Pow2(e));
    FewerBits(x, e, e + 1);
    ModuloMultiple(x, Pow2(e), 1);
  }

  method SetBit(pn: array<Limb>, shift: nat)
    requires pn.Length == WIDTH && shift < 256 && ZeroBits(pn[..], shift + 1)
    modifies pn
    ensures Value(pn[..]) == old(Value(pn[..])) + Pow2(shift) && ZeroBits(pn[..], shift)
  {
    hide Low, Weight, Pow2, ZeroBits, OrLimb;
    var j, e := shift / 32, shift % 32;
    BitClear(pn[..], shift);
    BitAdds(pn[j], e);
    var limb := OrLimb(pn[j], Pow2(e));
    LowReplace(pn[..], j, limb, WIDTH);
    AddWeights(pn[j], Pow2(e), Weight(j));
    ShiftSplits(j, e);
    BitsStay(pn[..], shift, limb);
    ghost var before := pn[..];
    pn[j] := limb;
    assert pn[..] == before[j := limb];
  }

  lemma BitClear(s: seq<Limb>, shift: nat)
    requires |s| == WIDTH && shift < 256 && ZeroBits(s, shift + 1)
    ensures s[shift / 32] % Pow2(shift % 32 + 1) == 0
  {
    assert BitsBelow(shift + 1, shift / 32) == shift % 32 + 1;
  }

  lemma BitsStay(s: seq<Limb>, shift: nat, limb: Limb)
    requires |s| == WIDTH && shift < 256 && ZeroBits(s, shift + 1) && limb % Pow2(shift % 32) == 0
    ensures ZeroBits(s[shift / 32 := limb], shift)
  {
    var t := s[shift / 32 := limb];
    hide Pow2;
    forall j | 0 <= j < |t|
      ensures t[j] % Pow2(BitsBelow(shift, j)) == 0
    {
      if j == shift / 32 {
        assert BitsBelow(shift, j) == shift % 32;
      } else {
        FewerBits(s[j], BitsBelow(shift, j), BitsBelow(shift + 1, j));
      }
    }
  }

  lemma FewerZeroBits(s: seq<Limb>, t: nat)
    requires ZeroBits(s, t + 1)
    ensures ZeroBits(s, t)
  {
    hide Pow2;
    forall j | 0 <= j < |s|
      ensures s[j] % Pow2(BitsBelow(t, j)) == 0
    {
      FewerBits(s[j], BitsBelow(t, j), BitsBelow(t + 1, j));
    }
  }

  // The long division so far: what has been taken away times the divisor, and
  // the rest, which is below the divisor moved up one step further.
  ghost predicate Dividing(n: nat, d: nat, quotient: nat, rest: nat, shift: nat) {
    n == quotient * d + rest && rest < d * Pow2(shift)
  }

  lemma TakeAway(n: nat, d: nat, quotient: nat, rest: nat, shift: nat)
    requires Dividing(n, d, quotient, rest, shift + 1)
    ensures rest >= d * Pow2(shift) ==> Dividing(n, d, quotient + Pow2(shift), rest - d * Pow2(shift), shift)
    ensures rest < d * Pow2(shift) ==> Dividing(n, d, quotient, rest, shift)
  {
    assert Pow2(shift + 1) == 2 * Pow2(shift);
    hide Pow2;
    assert d * (2 * Pow2(shift)) == d * Pow2(shift) + d * Pow2(shift);
    assert (quotient + Pow2(shift)) * d == quotient * d + d * Pow2(shift);
  }

  // The divisor moved up so that the highest bits meet.
  lemma Aligned(n: nat, d: nat, nb: nat, db: nat)
    requires HasBits(n, nb) && HasBits(d, db) && 0 < db <= nb <= 256
    ensures d * Pow2(nb - db) < Weight(WIDTH) && Dividing(n, d, 0, n, nb - db + 1)
  {
    hide Pow2, Weight;
    var s := nb - db;
    Pow2Add(db, s);
    Pow2Add(db - 1, s + 1);
    Pow2Monotone(nb, 256);
    WeightIsPow2(WIDTH);
    AlignedProducts(d, Pow2(s), Pow2(db), Pow2(s + 1), Pow2(db - 1));
  }

  lemma AlignedProducts(d: nat, s: nat, high: nat, t: nat, low: nat)
    requires low <= d < high && s > 0
    ensures d * s < high * s && low * t <= d * t
  {
    StrictProduct(s, d, high);
    ProductMonotone(t, low, d);
  }

  lemma StrictProduct(w: nat, x: nat, y: nat)
    requires 0 < w && x < y
    ensures w * x < w * y
  {
  }

  lemma BitsDecide(n: nat, d: nat, nb: nat, db: nat)
    requires HasBits(n, nb) && HasBits(d, db) && nb < db
    ensures n < d
  {
    Pow2Monotone(nb, db - 1);
    if nb == 0 {
      assert Pow2(db - 1) > 0;
    }
  }

  lemma HalfPower(d: nat, shift: nat)
    requires shift > 0
    ensures d * Pow2(shift) / Pow2(1) == d * Pow2(shift - 1)
  {
    assert Pow2(shift) == 2 * Pow2(shift - 1) && Pow2(1) == 2;
    hide Pow2;
    DivisionUnique(d * Pow2(shift), 2, d * Pow2(shift - 1), 0);
  }

  method Copy(b: array<Limb>) returns (r: array<Limb>)
    requires b.Length == WIDTH
    ensures fresh(r) && r.Length == WIDTH && r[..] == b[..]
  {
    r := new Limb[WIDTH](i requires 0 <= i < WIDTH && b.Length == WIDTH reads b => b[i]);
  }

  // Divides by shifting and subtracting.  Division by zero is an error, which
  // leaves zero behind.
  method DivAssign(pn: array<Limb>, b: array<Limb>) returns (ok: bool)
    requires pn.Length == WIDTH && b.Length == WIDTH
    modifies pn
    ensures ok <==> old(Value(b[..])) != 0
    ensures ok ==> Value(pn[..]) == old(Value(pn[..])) / old(Value(b[..]))
    ensures !ok ==> Value(pn[..]) == 0
  {
    hide Value, Weight, Pow2, HasBits, ZeroBits, Dividing;
    var div := Copy(b);
    var num := Copy(pn);
    ghost var n, d := Value(num[..]), Value(div[..]);
    SetZero(pn);
    var numBits := Bits(num);
    var divBits := Bits(div);
    BitsOfZero(d, divBits);
    if divBits == 0 {
      return false;
    }
    if divBits > numBits {
      BitsDecide(n, d, numBits, divBits);
      DivisionUnique(n, d, 0, n);
      return true;
    }
    var shift := numBits - divBits;
    Aligned(n, d, numBits, divBits);
    ShlAssign(div, shift);
    DivisionUnique(d * Pow2(shift), Weight(WIDTH), 0, d * Pow2(shift));
    ZerosHaveZeroBits(pn[..], shift + 1);
    Quotient(pn, num, div, shift, n, d);
    ok := true;
  }

  lemma BitsOfZero(v: nat, r: nat)
    requires HasBits(v, r)
    ensures r == 0 <==> v == 0
  {
  }

  lemma ZerosHaveZeroBits(s: seq<Limb>, t: nat)
    requires forall j | 0 <= j < |s| :: s[j] == 0
    ensures ZeroBits(s, t)
  {
    hide Pow2;
    forall j | 0 <= j < |s|
      ensures s[j] % Pow2(BitsBelow(t, j)) == 0
    {
      DivisionUnique(0, Pow2(BitsBelow(t, j)), 0, 0);
    }
  }

  // The loop of the division.
  method Quotient(pn: array<Limb>, num: array<Limb>, div: array<Limb>, top: nat, ghost n: nat, ghost d: nat)
    requires pn.Length == WIDTH && num.Length == WIDTH && div.Length == WIDTH
    requires pn != num && pn != div && num != div && top < 256 && d > 0
    requires Value(div[..]) == d * Pow2(top) && ZeroBits(pn[..], top + 1)
    requires Dividing(n, d, Value(pn[..]), Value(num[..]), top + 1)
    modifies pn, num, div
    ensures Value(pn[..]) == n / d
  {
    hide Value, Weight, Pow2, ZeroBits, Dividing;
    var shift := top;
    while shift >= 0
      invariant -1 <= shift <= top
      invariant shift >= 0 ==> Value(div[..]) == d * Pow2(shift)
      invariant Dividing(n, d, Value(pn[..]), Value(num[..]), shift + 1) && ZeroBits(pn[..], shift + 1)
    {
      TakeAway(n, d, Value(pn[..]), Value(num[..]), shift);
      FewerZeroBits(pn[..], shift);
      var c := CompareTo(num, div);
      if c >= 0 {
        Subtracts(num[..], div[..]);
        SubAssign(num, div);
        SetBit(pn, shift);
      }
      if shift > 0 {
        HalfPower(d, shift);
      }
      ShrAssign(div, 1);
      shift := shift - 1;
    }
    DivisionEnds(n, d, Value(pn[..]), Value(num[..]));
  }

  lemma Subtracts(x: seq<Limb>, y: seq<Limb>)
    requires |x| == |y| == WIDTH && Value(x) >= Value(y)
    ensures (Value(x) - Value(y)) % Weight(WIDTH) == Value(x) - Value(y)
  {
    hide Low, Weight;
    LowBound(x, WIDTH);
  }

  lemma DivisionEnds(n: nat, d: nat, q: nat, r: nat)
    requires d > 0 && Dividing(n, d, q, r, 0)
    ensures q == n / d
  {
    assert d * Pow2(0) == d;
    DivisionUnique(n, d, q, r);
  }
}
