/**
 Bech32 strings: a readable prefix, the separator '1', and 5-bit values with a
 30-bit checksum.  Characters and values are bytes.
 */
module Bech32 {
  import opened Options

  type Data = seq<bv8>

  // ------------------------------------------------------------------ the checksum

  function Xor(a: bv32, b: bv32): bv32 {
    a ^ b
  }

  function Xor8(v: bv8, w: bv8): bv8 {
    v ^ w
  }

  lemma XorAssociative(a: bv32, b: bv32, c: bv32)
    ensures Xor(Xor(a, b), c) == Xor(a, Xor(b, c))
  {
  }

  // Sums of pairs may be paired the other way.
  lemma XorCross(a: bv32, b: bv32, c: bv32, d: bv32)
    ensures Xor(Xor(a, b), Xor(c, d)) == Xor(Xor(a, c), Xor(b, d))
  {
    hide Xor;
    XorAssociative(a, b, Xor(c, d));
    XorAssociative(b, c, d);
    XorCommutative(b, c);
    XorAssociative(c, b, d);
    XorAssociative(a, c, Xor(b, d));
  }

  lemma XorCommutative(a: bv32, b: bv32)
    ensures Xor(a, b) == Xor(b, a)
  {
  }

  lemma XorZero(a: bv32)
    ensures Xor(a, 0) == a && Xor(0, a) == a && Xor(a, a) == 0
  {
  }

  lemma XorCancels(a: bv32, b: bv32)
    ensures Xor(a, b) == 0 <==> a == b
  {
    hide Xor;
    XorAssociative(a, b, b);
    XorZero(a);
    XorZero(b);
  }

  // A multiple of the generator, if its bit has been shifted out.
  function Tap(set_: bool, k: bv32): bv32 {
    if set_ then k else 0
  }

  predicate Bit(c: bv8, bit: bv8) {
    c & bit != 0
  }

  function Taps(c0: bv8): bv32 {
    Xor(Xor(Xor(Xor(Tap(Bit(c0, 1), 0x3b6a57b2), Tap(Bit(c0, 2), 0x26508e6d)), Tap(Bit(c0, 4), 0x1ea119fa)),
            Tap(Bit(c0, 8), 0x3d4233dd)), Tap(Bit(c0, 16), 0x2a1462b3))
  }

  // The remainder moved up by one value, less what is shifted out.
  function Shifted(c: bv32): bv32 {
    (c & 0x1ffffff) << 5
  }

  function ShiftedOut(c: bv32): bv8 {
    (c >> 25) as bv8
  }

  function Wide(v: bv8): bv32 {
    v as bv32
  }

  // One value into the remainder.
  function Step(c: bv32, v: bv8): bv32 {
    Xor(Xor(Shifted(c), Wide(v)), Taps(ShiftedOut(c)))
  }

  ghost function Fold(c: bv32, v: Data): bv32 {
    if v == [] then c else Step(Fold(c, v[..|v| - 1]), v[|v| - 1])
  }

  method PolyMod(v: Data) returns (c: bv32)
    ensures c == Fold(1, v)
  {
    hide Step;
    c := 1;
    for i := 0 to |v|
      invariant c == Fold(1, v[..i])
    {
      assert v[..i + 1][..i] == v[..i];
      c := Absorb(c, v[i]);
    }
    assert v[..|v|] == v;
  }

  // The body of the loop.
  method Absorb(c: bv32, v: bv8) returns (r: bv32)
    ensures r == Step(c, v)
  {
    hide Xor, Tap, Bit, Shifted, ShiftedOut, Wide;
    var c0 := ShiftedOut(c);
    ghost var x := Xor(Shifted(c), Wide(v));
    r := Xor(Shifted(c), Wide(v));
    r := Feed(r, Bit(c0, 1), 0x3b6a57b2);
    r := Feed(r, Bit(c0, 2), 0x26508e6d);
    r := Feed(r, Bit(c0, 4), 0x1ea119fa);
    r := Feed(r, Bit(c0, 8), 0x3d4233dd);
    r := Feed(r, Bit(c0, 16), 0x2a1462b3);
    XorFive(x, Tap(Bit(c0, 1), 0x3b6a57b2), Tap(Bit(c0, 2), 0x26508e6d), Tap(Bit(c0, 4), 0x1ea119fa),
            Tap(Bit(c0, 8), 0x3d4233dd), Tap(Bit(c0, 16), 0x2a1462b3));
  }

  // One conditional exclusive-or.
  method Feed(c: bv32, set_: bool, k: bv32) returns (r: bv32)
    ensures r == Xor(c, Tap(set_, k))
  {
    r := c;
    if set_ {
      r := r ^ k;
    }
    XorZero(c);
  }

  lemma XorFive(x: bv32, a: bv32, b: bv32, c: bv32, d: bv32, e: bv32)
    ensures Xor(Xor(Xor(Xor(Xor(x, a), b), c), d), e) == Xor(x, Xor(Xor(Xor(Xor(a, b), c), d), e))
  {
    hide Xor;
    XorAssociative(x, a, b);
    XorAssociative(x, Xor(a, b), c);
    XorAssociative(x, Xor(Xor(a, b), c), d);
    XorAssociative(x, Xor(Xor(Xor(a, b), c), d), e);
  }

  lemma BitLinear(a: bv8, b: bv8)
    ensures Bit(a ^ b, 1) == (Bit(a, 1) != Bit(b, 1)) && Bit(a ^ b, 2) == (Bit(a, 2) != Bit(b, 2))
    ensures Bit(a ^ b, 4) == (Bit(a, 4) != Bit(b, 4)) && Bit(a ^ b, 8) == (Bit(a, 8) != Bit(b, 8))
    ensures Bit(a ^ b, 16) == (Bit(a, 16) != Bit(b, 16))
  {
  }

  lemma TapLinear(p: bool, q: bool, k: bv32)
    ensures Tap(p != q, k) == Xor(Tap(p, k), Tap(q, k))
  {
    hide Xor;
    XorZero(k);
    XorZero(0);
  }

  lemma TapsLinear(a: bv8, b: bv8)
    ensures Taps(a ^ b) == Xor(Taps(a), Taps(b))
  {
    hide Tap, Xor, Bit;
    BitLinear(a, b);
    TapLinear(Bit(a, 1), Bit(b, 1), 0x3b6a57b2);
    TapLinear(Bit(a, 2), Bit(b, 2), 0x26508e6d);
    TapLinear(Bit(a, 4), Bit(b, 4), 0x1ea119fa);
    TapLinear(Bit(a, 8), Bit(b, 8), 0x3d4233dd);
    TapLinear(Bit(a, 16), Bit(b, 16), 0x2a1462b3);
    var a1, a2, a3, a4, a5 := Tap(Bit(a, 1), 0x3b6a57b2), Tap(Bit(a, 2), 0x26508e6d), Tap(Bit(a, 4), 0x1ea119fa),
                              Tap(Bit(a, 8), 0x3d4233dd), Tap(Bit(a, 16), 0x2a1462b3);
    var b1, b2, b3, b4, b5 := Tap(Bit(b, 1), 0x3b6a57b2), Tap(Bit(b, 2), 0x26508e6d), Tap(Bit(b, 4), 0x1ea119fa),
                              Tap(Bit(b, 8), 0x3d4233dd), Tap(Bit(b, 16), 0x2a1462b3);
    XorCross(a1, b1, a2, b2);
    XorCross(Xor(a1, a2), Xor(b1, b2), a3, b3);
    XorCross(Xor(Xor(a1, a2), a3), Xor(Xor(b1, b2), b3), a4, b4);
    XorCross(Xor(Xor(Xor(a1, a2), a3), a4), Xor(Xor(Xor(b1, b2), b3), b4), a5, b5);
  }

  lemma PartsLinear(c: bv32, d: bv32, v: bv8, w: bv8)
    ensures ShiftedOut(Xor(c, d)) == ShiftedOut(c) ^ ShiftedOut(d) && Shifted(Xor(c, d)) == Xor(Shifted(c), Shifted(d))
    ensures Wide(Xor8(v, w)) == Xor(Wide(v), Wide(w))
  {
  }

  // The step is linear over exclusive or.
  lemma StepLinear(c: bv32, d: bv32, v: bv8, w: bv8)
    ensures Step(Xor(c, d), Xor8(v, w)) == Xor(Step(c, v), Step(d, w))
  {
    hide Xor, Taps, Shifted, ShiftedOut, Wide;
    PartsLinear(c, d, v, w);
    TapsLinear(ShiftedOut(c), ShiftedOut(d));
    XorCross(Shifted(c), Shifted(d), Wide(v), Wide(w));
    XorCross(Xor(Shifted(c), Wide(v)), Xor(Shifted(d), Wide(w)), Taps(ShiftedOut(c)), Taps(ShiftedOut(d)));
  }

  lemma StepBound(c: bv32, v: bv8)
    requires c < 0x40000000 && v < 32
    ensures Step(c, v) < 0x40000000
  {
  }

  // Only zero is taken to zero.
  lemma StepKernel(c: bv32)
    requires c < 0x40000000 && Step(c, 0) == 0
    ensures c == 0
  {
  }

  lemma XorBound(c: bv32, d: bv32)
    requires c < 0x40000000 && d < 0x40000000
    ensures Xor(c, d) < 0x40000000
  {
  }

  // The step is injective on 30-bit remainders.
  lemma StepInjective(c: bv32, d: bv32, v: bv8)
    requires c < 0x40000000 && d < 0x40000000 && Step(c, v) == Step(d, v)
    ensures c == d
  {
    hide Step, Xor;
    StepLinear(c, d, v, v);
    assert Xor8(v, v) == 0;
    XorCancels(Step(c, v), Step(d, v));
    XorBound(c, d);
    StepKernel(Xor(c, d));
    XorCancels(c, d);
  }

  // ------------------------------------------------------------- whole sequences

  ghost predicate FiveBits(v: Data) {
    forall i | 0 <= i < |v| :: v[i] < 32
  }

  ghost function XorSeq(v: Data, w: Data): Data
    requires |v| == |w|
  {
    seq(|v|, i requires 0 <= i < |v| => Xor8(v[i], w[i]))
  }

  lemma {:induction false} FoldLinear(c: bv32, d: bv32, v: Data, w: Data)
    requires |v| == |w|
    ensures Fold(Xor(c, d), XorSeq(v, w)) == Xor(Fold(c, v), Fold(d, w))
  {
    hide Step, Xor, Xor8;
    var n := |v| - 1;
    if v != [] {
      FoldLinear(c, d, v[..n], w[..n]);
      assert XorSeq(v, w)[..n] == XorSeq(v[..n], w[..n]);
      StepLinear(Fold(c, v[..n]), Fold(d, w[..n]), v[n], w[n]);
    }
  }

  lemma {:induction false} FoldAppend(c: bv32, v: Data, w: Data)
    ensures Fold(c, v + w) == Fold(Fold(c, v), w)
  {
    hide Step;
    if w == [] {
      assert v + w == v;
    } else {
      var n := |w| - 1;
      assert (v + w)[..|v + w| - 1] == v + w[..n];
      FoldAppend(c, v, w[..n]);
    }
  }

  lemma {:induction false} FoldBound(c: bv32, v: Data)
    requires c < 0x40000000 && FiveBits(v)
    ensures Fold(c, v) < 0x40000000
  {
    hide Step;
    if v != [] {
      FoldBound(c, v[..|v| - 1]);
      StepBound(Fold(c, v[..|v| - 1]), v[|v| - 1]);
    }
  }

  lemma {:induction false} FoldInjective(c: bv32, d: bv32, v: Data)
    requires c < 0x40000000 && d < 0x40000000 && c != d && FiveBits(v)
    ensures Fold(c, v) != Fold(d, v)
  {
    hide Step;
    if v != [] {
      var u := v[..|v| - 1];
      FoldInjective(c, d, u);
      FoldBound(c, u);
      FoldBound(d, u);
      if Fold(c, v) == Fold(d, v) {
        StepInjective(Fold(c, u), Fold(d, u), v[|v| - 1]);
      }
    }
  }

  // The remainder of k values from zero: nothing is shifted out up to six.
  function Room(k: nat): bv32
    requires k <= 6
  {
    [1, 0x20, 0x400, 0x8000, 0x10_0000, 0x200_0000, 0x4000_0000][k]
  }

  predicate Fits(c: bv32, k: nat)
    requires k <= 6
  {
    c < Room(k)
  }

  lemma RoomStep(c: bv32, v: bv8, k: nat)
    requires k < 6 && Fits(c, k) && v < 32
    ensures Fits(Step(c, v), k + 1) && (Step(c, v) == 0 ==> c == 0 && v == 0)
  {
    hide Room, Step, Next;
    RoomIs();
    assert k in {0, 1, 2, 3, 4, 5};
    SmallStep(c, v);
    NextFits(c, v);
  }

  lemma NextFits(c: bv32, v: bv8)
    requires c < 0x200_0000 && v < 32
    ensures Next(c, v) == 0 ==> c == 0 && v == 0
    ensures c < 1 ==> Next(c, v) < 0x20
    ensures c < 0x20 ==> Next(c, v) < 0x400
    ensures c < 0x400 ==> Next(c, v) < 0x8000
    ensures c < 0x8000 ==> Next(c, v) < 0x10_0000
    ensures c < 0x10_0000 ==> Next(c, v) < 0x200_0000
    ensures Next(c, v) < 0x4000_0000
  {
  }

  lemma RoomIs()
    ensures Room(0) == 1 && Room(1) == 0x20 && Room(2) == 0x400 && Room(3) == 0x8000 && Room(4) == 0x10_0000
    ensures Room(5) == 0x200_0000 && Room(6) == 0x4000_0000
  {
  }

  lemma SmallStep(c: bv32, v: bv8)
    requires c < 0x200_0000 && v < 32
    ensures Step(c, v) == Next(c, v)
  {
    hide Xor, Taps, Shifted, Wide, Next;
    assert ShiftedOut(c) == 0;
    NoTaps();
    XorZero(Xor(Shifted(c), Wide(v)));
    ShiftAdds(c, v);
  }

  lemma NoTaps()
    ensures Taps(0) == 0
  {
  }

  lemma ShiftAdds(c: bv32, v: bv8)
    requires c < 0x200_0000 && v < 32
    ensures Xor(Shifted(c), Wide(v)) == Next(c, v)
  {
  }

  lemma FitsNone()
    ensures Fits(0, 0)
  {
  }

  lemma {:induction false} ShortFold(e: Data)
    requires |e| <= 6 && FiveBits(e)
    ensures Fits(Fold(0, e), |e|)
    ensures Fold(0, e) == 0 ==> forall i | 0 <= i < |e| :: e[i] == 0
  {
    hide Step, Fits;
    FitsNone();
    if e != [] {
      var n := |e| - 1;
      ShortFold(e[..n]);
      RoomStep(Fold(0, e[..n]), e[n], n);
      if Fold(0, e) == 0 {
        forall i | 0 <= i < |e|
          ensures e[i] == 0
        {
          assert i < n ==> e[..n][i] == 0;
        }
      }
    }
  }

  // ------------------------------------------------------- errors are detected

  lemma {:induction false} ZeroXor(a: Data, b: Data)
    requires |a| == |b| && forall i | 0 <= i < |a| :: XorSeq(a, b)[i] == 0
    ensures a == b
  {
    forall i | 0 <= i < |a|
      ensures a[i] == b[i]
    {
      assert XorSeq(a, b)[i] == Xor8(a[i], b[i]);
      Xor8Cancels(a[i], b[i]);
    }
  }

  lemma Xor8Cancels(a: bv8, b: bv8)
    ensures Xor8(a, b) == 0 <==> a == b
    ensures a < 32 && b < 32 ==> Xor8(a, b) < 32
  {
  }

  lemma XorSeqFive(a: Data, b: Data)
    requires |a| == |b| && FiveBits(a) && FiveBits(b)
    ensures FiveBits(XorSeq(a, b))
  {
    hide Xor8;
    forall i | 0 <= i < |a|
      ensures XorSeq(a, b)[i] < 32
    {
      Xor8Cancels(a[i], b[i]);
    }
  }

  // Two different windows of at most six values never give the same remainder.
  lemma WindowsDiffer(c: bv32, a: Data, b: Data)
    requires |a| == |b| <= 6 && FiveBits(a) && FiveBits(b) && a != b
    ensures Fold(c, a) != Fold(c, b)
  {
    hide Xor, XorSeq, Fold;
    FoldLinear(c, c, a, b);
    XorZero(c);
    XorSeqFive(a, b);
    XorSeqLength(a, b);
    ShortFold(XorSeq(a, b));
    XorCancels(Fold(c, a), Fold(c, b));
    if Fold(c, a) == Fold(c, b) {
      ZeroXor(a, b);
    }
  }

  lemma XorSeqLength(a: Data, b: Data)
    requires |a| == |b|
    ensures |XorSeq(a, b)| == |a|
  {
  }

  ghost predicate Verifies(hrp: Data, values: Data) {
    Fold(1, Expanded(hrp) + values) == 1
  }

  function HighPart(c: bv8): bv8 {
    c >> 5
  }

  function LowPart(c: bv8): bv8 {
    c & 0x1f
  }

  ghost function Expanded(hrp: Data): Data {
    seq(|hrp|, i requires 0 <= i < |hrp| => HighPart(hrp[i])) + [0] + seq(|hrp|, i requires 0 <= i < |hrp| => LowPart(hrp[i]))
  }

  lemma ExpandedFive(hrp: Data)
    ensures FiveBits(Expanded(hrp))
  {
    forall i | 0 <= i < |Expanded(hrp)|
      ensures Expanded(hrp)[i] < 32
    {
      if i < |hrp| {
        Halves(hrp[i]);
      } else if i > |hrp| {
        Halves(hrp[i - |hrp| - 1]);
      }
    }
  }

  lemma Halves(c: bv8)
    ensures HighPart(c) < 32 && LowPart(c) < 32
  {
  }

  // A valid string with any change within six consecutive values, in particular
  // of a single value, is no longer valid.
  lemma BurstRejected(hrp: Data, pre: Data, a: Data, b: Data, post: Data)
    requires |a| == |b| <= 6 && a != b && FiveBits(pre) && FiveBits(a) && FiveBits(b) && FiveBits(post)
    requires Verifies(hrp, pre + a + post)
    ensures !Verifies(hrp, pre + b + post)
  {
    hide Fold, Expanded;
    ExpandedFive(hrp);
    var h := Expanded(hrp) + pre;
    assert Expanded(hrp) + (pre + a + post) == h + a + post && Expanded(hrp) + (pre + b + post) == h + b + post;
    FoldAppend(1, h + a, post);
    FoldAppend(1, h + b, post);
    FoldAppend(1, h, a);
    FoldAppend(1, h, b);
    var c := Fold(1, h);
    FoldBound(1, h);
    FoldBound(c, a);
    FoldBound(c, b);
    WindowsDiffer(c, a, b);
    FoldInjective(Fold(c, a), Fold(c, b), post);
  }

  // ------------------------------------------------------------- the checksum made

  // A five-bit group of a remainder, the highest first.
  function Group(m: bv32, i: nat): bv8
    requires i < 6
  {
    var moved := if i == 0 then m >> 25 else if i == 1 then m >> 20 else if i == 2 then m >> 15
                 else if i == 3 then m >> 10 else if i == 4 then m >> 5 else m;
    (moved & 31) as bv8
  }

  ghost function Groups(m: bv32): Data {
    [Group(m, 0), Group(m, 1), Group(m, 2), Group(m, 3), Group(m, 4), Group(m, 5)]
  }

  function Pack(a: bv8, b: bv8, c: bv8, d: bv8, e: bv8, f: bv8): bv32 {
    ((a as bv32) << 25) | ((b as bv32) << 20) | ((c as bv32) << 15) | ((d as bv32) << 10) | ((e as bv32) << 5) | (f as bv32)
  }

  lemma GroupsPack(m: bv32)
    requires m < 0x40000000
    ensures Pack(Group(m, 0), Group(m, 1), Group(m, 2), Group(m, 3), Group(m, 4), Group(m, 5)) == m
  {
  }

  lemma GroupsFive(m: bv32)
    ensures FiveBits(Groups(m)) && |Groups(m)| == 6
  {
  }

  // Six values from zero simply line up.
  lemma FoldSix(a: bv8, b: bv8, c: bv8, d: bv8, e: bv8, f: bv8)
    requires a < 32 && b < 32 && c < 32 && d < 32 && e < 32 && f < 32
    ensures Fold(0, [a, b, c, d, e, f]) == Pack(a, b, c, d, e, f)
  {
    hide Fold;
    assert [] + [a] == [a] && [a] + [b] == [a, b] && [a, b] + [c] == [a, b, c] && [a, b, c] + [d] == [a, b, c, d];
    assert [a, b, c, d] + [e] == [a, b, c, d, e] && [a, b, c, d, e] + [f] == [a, b, c, d, e, f];
    var x0 := Wide(a);
    var x1 := Next(x0, b);
    var x2 := Next(x1, c);
    var x3 := Next(x2, d);
    var x4 := Next(x3, e);
    FoldNone();
    NextBounds(a, b, c, d, e, f);
    hide Next, Pack, Wide;
    FoldOne(0, [], a);
    FoldOne(x0, [a], b);
    FoldOne(x1, [a, b], c);
    FoldOne(x2, [a, b, c], d);
    FoldOne(x3, [a, b, c, d], e);
    FoldOne(x4, [a, b, c, d, e], f);
  }

  function Next(x: bv32, v: bv8): bv32 {
    (x << 5) | (v as bv32)
  }

  lemma FoldNone()
    ensures Fold(0, []) == 0
  {
  }

  lemma NextBounds(a: bv8, b: bv8, c: bv8, d: bv8, e: bv8, f: bv8)
    requires a < 32 && b < 32 && c < 32 && d < 32 && e < 32 && f < 32
    ensures Next(0, a) == Wide(a) < 0x200_0000 && Next(Wide(a), b) < 0x200_0000 && Next(Next(Wide(a), b), c) < 0x200_0000
    ensures Next(Next(Next(Wide(a), b), c), d) < 0x200_0000 && Next(Next(Next(Next(Wide(a), b), c), d), e) < 0x200_0000
    ensures Next(Next(Next(Next(Next(Wide(a), b), c), d), e), f) == Pack(a, b, c, d, e, f)
  {
  }

  lemma FoldOne(x: bv32, s: Data, v: bv8)
    requires Fold(0, s) == x && x < 0x200_0000 && v < 32
    ensures Fold(0, s + [v]) == Next(x, v)
  {
    assert (s + [v])[..|s|] == s;
    SmallStep(x, v);
  }

  const SIX_ZEROES: Data := [0, 0, 0, 0, 0, 0]

  ghost function Checksum(hrp: Data, values: Data): Data {
    Groups(Xor(Fold(1, Expanded(hrp) + values + SIX_ZEROES), 1))
  }

  lemma XorSeqZeroes(g: Data)
    requires |g| == 6
    ensures XorSeq(SIX_ZEROES, g) == g
  {
    forall i | 0 <= i < 6
      ensures Xor8(SIX_ZEROES[i], g[i]) == g[i]
    {
      assert SIX_ZEROES[i] == 0;
    }
  }

  // Every checksum that is made is accepted.
  lemma CreatedVerifies(hrp: Data, values: Data)
    requires FiveBits(values)
    ensures |Checksum(hrp, values)| == 6 && FiveBits(Checksum(hrp, values))
    ensures Verifies(hrp, values + Checksum(hrp, values))
  {
    hide Fold, Expanded, Groups, Xor, XorSeq;
    ExpandedFive(hrp);
    var h := Expanded(hrp) + values;
    var c := Fold(1, h);
    FoldBound(1, h);
    FoldBound(c, SIX_ZEROES);
    FoldAppend(1, h, SIX_ZEROES);
    var p := Fold(c, SIX_ZEROES);
    var m := Xor(p, 1);
    XorBound(p, 1);
    var g := Groups(m);
    GroupsFive(m);
    GroupsFold(m);
    assert Expanded(hrp) + (values + g) == h + g;
    FoldAppend(1, h, g);
    XorZero(c);
    XorSeqZeroes(g);
    FoldLinear(c, 0, SIX_ZEROES, g);
    XorAssociative(p, p, 1);
    XorZero(p);
    XorZero(1);
  }

  lemma GroupsFold(m: bv32)
    requires m < 0x40000000
    ensures Fold(0, Groups(m)) == m
  {
    hide Fold, Group, Pack;
    GroupsSmall(m);
    FoldSix(Group(m, 0), Group(m, 1), Group(m, 2), Group(m, 3), Group(m, 4), Group(m, 5));
    GroupsPack(m);
  }

  lemma GroupsSmall(m: bv32)
    ensures forall i: nat | i < 6 :: Group(m, i) < 32
  {
  }

  method ExpandHRP(hrp: Data) returns (ret: Data)
    ensures ret == Expanded(hrp)
  {
    hide HighPart, LowPart;
    ret := seq(|hrp| * 2 + 1, _ => 0);
    for i := 0 to |hrp|
      invariant |ret| == |hrp| * 2 + 1 && ret[|hrp|] == 0
      invariant forall k | 0 <= k < i :: ret[k] == HighPart(hrp[k]) && ret[k + |hrp| + 1] == LowPart(hrp[k])
    {
      var c := hrp[i];
      ret := ret[i := HighPart(c)];
      ret := ret[i + |hrp| + 1 := LowPart(c)];
    }
    ret := ret[|hrp| := 0];
  }

  method VerifyChecksum(hrp: Data, values: Data) returns (ok: bool)
    ensures ok <==> Verifies(hrp, values)
  {
    hide Fold, Expanded;
    var enc := ExpandHRP(hrp);
    var c := PolyMod(enc + values);
    ok := c == 1;
  }

  method CreateChecksum(hrp: Data, values: Data) returns (ret: Data)
    ensures ret == Checksum(hrp, values)
  {
    hide Fold, Expanded, Xor, Group;
    var enc := ExpandHRP(hrp);
    enc := enc + values + SIX_ZEROES;
    var mod := PolyMod(enc);
    mod := Xor(mod, 1);
    ret := SIX_ZEROES;
    for i := 0 to 6
      invariant |ret| == 6 && forall k: nat | k < i :: ret[k] == Group(mod, k)
    {
      ret := ret[i := Group(mod, i)];
    }
  }

  // --------------------------------------------------------------------- strings

  const SEPARATOR: bv8 := 0x31

  // The alphabet qpzry9x8 gf2tvdw0 s3jn54kh ce6mua7l.
  function Char(v: bv8): bv8
    requires v < 32
  {
    if v == 0 then 0x71 else if v == 1 then 0x70 else if v == 2 then 0x7a else if v == 3 then 0x72 else
    if v == 4 then 0x79 else if v == 5 then 0x39 else if v == 6 then 0x78 else if v == 7 then 0x38 else
    if v == 8 then 0x67 else if v == 9 then 0x66 else if v == 10 then 0x32 else if v == 11 then 0x74 else
    if v == 12 then 0x76 else if v == 13 then 0x64 else if v == 14 then 0x77 else if v == 15 then 0x30 else
    if v == 16 then 0x73 else if v == 17 then 0x33 else if v == 18 then 0x6a else if v == 19 then 0x6e else
    if v == 20 then 0x35 else if v == 21 then 0x34 else if v == 22 then 0x6b else if v == 23 then 0x68 else
    if v == 24 then 0x63 else if v == 25 then 0x65 else if v == 26 then 0x36 else if v == 27 then 0x6d else
    if v == 28 then 0x75 else if v == 29 then 0x61 else if v == 30 then 0x37 else 0x6c
  }

  lemma AlphabetFirst()
    ensures Char(0) == 'q' as bv8 && Char(1) == 'p' as bv8 && Char(2) == 'z' as bv8 && Char(3) == 'r' as bv8
    ensures Char(4) == 'y' as bv8 && Char(5) == '9' as bv8 && Char(6) == 'x' as bv8 && Char(7) == '8' as bv8
  {
  }

  lemma AlphabetSecond()
    ensures Char(8) == 'g' as bv8 && Char(9) == 'f' as bv8 && Char(10) == '2' as bv8 && Char(11) == 't' as bv8
    ensures Char(12) == 'v' as bv8 && Char(13) == 'd' as bv8 && Char(14) == 'w' as bv8 && Char(15) == '0' as bv8
  {
  }

  lemma AlphabetThird()
    ensures Char(16) == 's' as bv8 && Char(17) == '3' as bv8 && Char(18) == 'j' as bv8 && Char(19) == 'n' as bv8
    ensures Char(20) == '5' as bv8 && Char(21) == '4' as bv8 && Char(22) == 'k' as bv8 && Char(23) == 'h' as bv8
  {
  }

  lemma AlphabetFourth()
    ensures Char(24) == 'c' as bv8 && Char(25) == 'e' as bv8 && Char(26) == '6' as bv8 && Char(27) == 'm' as bv8
  {
  }

  lemma AlphabetLast()
    ensures Char(28) == 'u' as bv8 && Char(29) == 'a' as bv8 && Char(30) == '7' as bv8 && Char(31) == 'l' as bv8
  {
  }

  // No value: -1 as a byte.
  const NONE: bv8 := 0xff

  // The value of a character in either case.
  function Rev(c: bv8): bv8 {
    if c == 0x71 || c == 0x51 then 0 else if c == 0x70 || c == 0x50 then 1 else if c == 0x7a || c == 0x5a then 2 else if c == 0x72 || c == 0x52 then 3 else
    if c == 0x79 || c == 0x59 then 4 else if c == 0x39 then 5 else if c == 0x78 || c == 0x58 then 6 else if c == 0x38 then 7 else
    if c == 0x67 || c == 0x47 then 8 else if c == 0x66 || c == 0x46 then 9 else if c == 0x32 then 10 else if c == 0x74 || c == 0x54 then 11 else
    if c == 0x76 || c == 0x56 then 12 else if c == 0x64 || c == 0x44 then 13 else if c == 0x77 || c == 0x57 then 14 else if c == 0x30 then 15 else
    if c == 0x73 || c == 0x53 then 16 else if c == 0x33 then 17 else if c == 0x6a || c == 0x4a then 18 else if c == 0x6e || c == 0x4e then 19 else
    if c == 0x35 then 20 else if c == 0x34 then 21 else if c == 0x6b || c == 0x4b then 22 else if c == 0x68 || c == 0x48 then 23 else
    if c == 0x63 || c == 0x43 then 24 else if c == 0x65 || c == 0x45 then 25 else if c == 0x36 then 26 else if c == 0x6d || c == 0x4d then 27 else
    if c == 0x75 || c == 0x55 then 28 else if c == 0x61 || c == 0x41 then 29 else if c == 0x37 then 30 else if c == 0x6c || c == 0x4c then 31 else NONE
  }

  predicate IsLower(c: bv8) {
    0x61 <= c <= 0x7a
  }

  predicate IsUpper(c: bv8) {
    0x41 <= c <= 0x5a
  }

  function LowerCase(c: bv8): bv8 {
    if IsUpper(c) then (c - 0x41) + 0x61 else c
  }

  // The two tables are inverse.
  lemma RevChar(v: bv8)
    requires v < 32
    ensures Rev(Char(v)) == v
  {
    if v < 16 {
      RevCharLow(v);
    } else if v < 24 {
      RevCharHigh(v);
    } else if v < 28 {
      RevCharTop(v);
    } else if v < 30 {
      RevCharLate(v);
    } else {
      RevCharLast(v);
    }
  }

  lemma RevCharLow(v: bv8)
    requires v < 16
    ensures Rev(Char(v)) == v
  {
  }

  lemma RevCharHigh(v: bv8)
    requires 16 <= v < 24
    ensures Rev(Char(v)) == v
  {
  }

  lemma RevCharTop(v: bv8)
    requires 24 <= v < 28
    ensures Rev(Char(v)) == v
  {
  }

  lemma RevCharLate(v: bv8)
    requires 28 <= v < 30
    ensures Rev(Char(v)) == v
  {
  }

  lemma RevCharLast(v: bv8)
    requires 30 <= v < 32
    ensures Rev(Char(v)) == v
  {
  }

  // The alphabet is printable and lower case, and without the separator.
  lemma CharKind(v: bv8)
    requires v < 32
    ensures Printable(Char(v)) && !IsUpper(Char(v)) && Char(v) != SEPARATOR
  {
  }

  predicate Printable(c: bv8) {
    33 <= c <= 126
  }

  ghost predicate Acceptable(s: Data) {
    && (forall i | 0 <= i < |s| :: Printable(s[i]))
    && !((exists i :: 0 <= i < |s| && IsLower(s[i])) && (exists i :: 0 <= i < |s| && IsUpper(s[i])))
  }

  // The last separator, or -1.
  ghost function LastSeparator(s: Data, n: nat): (pos: int)
    requires n <= |s|
    ensures -1 <= pos < n
  {
    if n == 0 then -1 else if s[n - 1] == SEPARATOR then n - 1 else LastSeparator(s, n - 1)
  }

  ghost function Lowered(s: Data): Data {
    seq(|s|, i requires 0 <= i < |s| => LowerCase(s[i]))
  }

  ghost function Values(s: Data): Data {
    seq(|s|, i requires 0 <= i < |s| => Rev(s[i]))
  }

  // What a string stands for: a lower-case prefix and its values.
  ghost function Decoding(s: Data): Option<(Data, Data)> {
    var pos := LastSeparator(s, |s|);
    if !Acceptable(s) || |s| > 90 || pos <= 0 || pos + 7 > |s| then None
    else
      var hrp, values := Lowered(s[..pos]), Values(s[pos + 1..]);
      if NONE in values || !Verifies(hrp, values) then None else Some((hrp, values[..|values| - 6]))
  }

  method Decode(str: Data) returns (r: Option<(Data, Data)>)
    ensures r == Decoding(str)
  {
    hide Rev, LowerCase, Fold, Expanded;
    var lower, upper := false, false;
    for i := 0 to |str|
      invariant forall k | 0 <= k < i :: Printable(str[k])
      invariant lower <==> exists k :: 0 <= k < i && IsLower(str[k])
      invariant upper <==> exists k :: 0 <= k < i && IsUpper(str[k])
    {
      var c := str[i];
      if !Printable(c) {
        return None;
      }
      if IsLower(c) { lower := true; }
      if IsUpper(c) { upper := true; }
    }
    if lower && upper {
      return None;
    }
    var pos := FindSeparator(str);
    if |str| > 90 || pos <= 0 || pos + 7 > |str| {
      return None;
    }
    var values := [];
    for i := 0 to |str| - 1 - pos
      invariant values == Values(str[pos + 1..])[..i] && NONE !in values
    {
      var rev := Rev(str[i + pos + 1]);
      if rev == NONE {
        assert Values(str[pos + 1..])[i] == NONE;
        return None;
      }
      values := values + [rev];
    }
    var hrp := [];
    for i := 0 to pos
      invariant hrp == Lowered(str[..pos])[..i]
    {
      hrp := hrp + [LowerCase(str[i])];
    }
    assert hrp == Lowered(str[..pos]) && values == Values(str[pos + 1..]);
    var ok := VerifyChecksum(hrp, values);
    if !ok {
      return None;
    }
    r := Some((hrp, values[..|values| - 6]));
  }

  method FindSeparator(s: Data) returns (pos: int)
    ensures pos == LastSeparator(s, |s|)
  {
    var n := |s|;
    while n > 0
      invariant 0 <= n <= |s| && LastSeparator(s, n) == LastSeparator(s, |s|)
    {
      if s[n - 1] == SEPARATOR {
        return n - 1;
      }
      n := n - 1;
    }
    return -1;
  }

  ghost function Chars(v: Data): Data
    requires FiveBits(v)
  {
    seq(|v|, i requires 0 <= i < |v| => Char(v[i]))
  }

  ghost function Encoding(hrp: Data, values: Data): Data
    requires FiveBits(values)
  {
    CreatedVerifies(hrp, values);
    hrp + [SEPARATOR] + Chars(values + Checksum(hrp, values))
  }

  method Encode(hrp: Data, values: Data) returns (ret: Data)
    requires FiveBits(values)
    ensures ret == Encoding(hrp, values)
  {
    hide Char, Checksum;
    CreatedVerifies(hrp, values);
    var checksum := CreateChecksum(hrp, values);
    var combined := values + checksum;
    ret := hrp + [SEPARATOR];
    for i := 0 to |combined|
      invariant ret == hrp + [SEPARATOR] + Chars(combined)[..i]
    {
      ret := ret + [Char(combined[i])];
    }
  }

  // --------------------------------------------------------------- the round trip

  // A prefix as Encode expects it.
  ghost predicate LowerPrefix(hrp: Data) {
    |hrp| > 0 && forall i | 0 <= i < |hrp| :: Printable(hrp[i]) && !IsUpper(hrp[i])
  }

  lemma LowerPrefixIs(hrp: Data)
    ensures LowerPrefix(hrp) <==>
              1 <= |hrp| && forall i | 0 <= i < |hrp| :: 33 <= hrp[i] <= 126 && !('A' as bv8 <= hrp[i] <= 'Z' as bv8)
  {
    assert 'A' as bv8 == 0x41 && 'Z' as bv8 == 0x5a;
  }

  // A prefix, a '1', and characters of the alphabet with a valid checksum.
  ghost predicate SplitsAt(s: Data, pos: nat) {
    && 1 <= pos && pos + 7 <= |s| && s[pos] == '1' as bv8 && (forall i | pos < i < |s| :: Rev(s[i]) != NONE)
    && Verifies(Lowered(s[..pos]), Values(s[pos + 1..]))
  }

  lemma AcceptableIs(s: Data)
    ensures Acceptable(s) <==>
              && (forall i | 0 <= i < |s| :: 33 <= s[i] <= 126)
              && !((exists i :: 0 <= i < |s| && 'a' as bv8 <= s[i] <= 'z' as bv8)
                   && (exists i :: 0 <= i < |s| && 'A' as bv8 <= s[i] <= 'Z' as bv8))
  {
    assert 'A' as bv8 == 0x41 && 'Z' as bv8 == 0x5a && 'a' as bv8 == 0x61 && 'z' as bv8 == 0x7a;
  }

  lemma DecodedSplits(s: Data)
    requires Decoding(s).Some?
    ensures SplitsAt(s, LastSeparator(s, |s|))
  {
    hide Rev, Verifies, Lowered, Acceptable;
    assert '1' as bv8 == SEPARATOR;
    var p := LastSeparator(s, |s|);
    LastIsSeparator(s, |s|);
    forall i | p < i < |s|
      ensures Rev(s[i]) != NONE
    {
      assert Values(s[p + 1..])[i - p - 1] == Rev(s[i]);
    }
  }

  lemma SplitDecodes(s: Data, pos: nat)
    requires SplitsAt(s, pos) && Acceptable(s) && |s| <= 90
    ensures Decoding(s).Some?
  {
    hide Rev, Verifies, Lowered, Acceptable;
    assert '1' as bv8 == SEPARATOR;
    SeparatorIsNoValue();
    SeparatorAt(s, pos, |s|);
    var rest := s[pos + 1..];
    assert forall i | 0 <= i < |rest| :: rest[i] == s[i + pos + 1];
  }

  // What decodes: at most 90 visible characters, not both small and capital
  // letters, that split.
  lemma DecodesExactly(s: Data)
    ensures Decoding(s).Some? <==>
              && |s| <= 90 && (forall i | 0 <= i < |s| :: 33 <= s[i] <= 126)
              && !((exists i :: 0 <= i < |s| && 'a' as bv8 <= s[i] <= 'z' as bv8)
                   && (exists i :: 0 <= i < |s| && 'A' as bv8 <= s[i] <= 'Z' as bv8))
              && exists pos: nat :: SplitsAt(s, pos)
  {
    hide SplitsAt, Acceptable, Verifies, Lowered, Values;
    AcceptableIs(s);
    if Decoding(s).Some? {
      DecodedSplits(s);
    }
    if pos: nat :| SplitsAt(s, pos) {
      if Acceptable(s) && |s| <= 90 {
        SplitDecodes(s, pos);
      }
    }
  }

  lemma SeparatorIsNoValue()
    ensures Rev(SEPARATOR) == NONE
  {
  }

  lemma {:induction false} LastIsSeparator(s: Data, n: nat)
    requires n <= |s| && LastSeparator(s, n) >= 0
    ensures s[LastSeparator(s, n)] == SEPARATOR
  {
    if s[n - 1] != SEPARATOR {
      LastIsSeparator(s, n - 1);
    }
  }

  lemma {:induction false} SeparatorAt(s: Data, p: nat, n: nat)
    requires p < n <= |s| && s[p] == SEPARATOR && forall i | p < i < n :: s[i] != SEPARATOR
    ensures LastSeparator(s, n) == p
  {
    if p < n - 1 {
      SeparatorAt(s, p, n - 1);
    }
  }

  lemma CharsValues(v: Data)
    requires FiveBits(v)
    ensures Values(Chars(v)) == v && NONE !in v
    ensures forall i | 0 <= i < |v| :: Printable(Chars(v)[i]) && !IsUpper(Chars(v)[i]) && Chars(v)[i] != SEPARATOR
  {
    hide Char, Rev;
    forall i | 0 <= i < |v|
      ensures Rev(Chars(v)[i]) == v[i] && Printable(Chars(v)[i]) && !IsUpper(Chars(v)[i]) && Chars(v)[i] != SEPARATOR
    {
      RevChar(v[i]);
      CharKind(v[i]);
    }
  }

  lemma LowerIsLower(s: Data)
    requires forall i | 0 <= i < |s| :: !IsUpper(s[i])
    ensures Lowered(s) == s
  {
  }

  // Whatever the prefix, the last separator of an encoded string is the one
  // behind it.
  lemma EncodingParts(hrp: Data, values: Data)
    requires FiveBits(values)
    ensures |Checksum(hrp, values)| == 6 && FiveBits(values + Checksum(hrp, values))
    ensures var s, tail := Encoding(hrp, values), Chars(values + Checksum(hrp, values));
            && |s| == |hrp| + 1 + |values| + 6 && s[..|hrp|] == hrp && s[|hrp| + 1..] == tail
            && LastSeparator(s, |s|) == |hrp|
  {
    hide Chars, Values, Checksum, Verifies, Char;
    CreatedVerifies(hrp, values);
    var v := values + Checksum(hrp, values);
    CharsValues(v);
    CharsLength(v);
    var s, tail := Encoding(hrp, values), Chars(v);
    assert s[..|hrp|] == hrp && s[|hrp| + 1..] == tail;
    forall i | |hrp| < i < |s|
      ensures s[i] != SEPARATOR
    {
      assert s[i] == tail[i - |hrp| - 1];
    }
    SeparatorAt(s, |hrp|, |s|);
  }

  lemma EncodedDecodes(hrp: Data, values: Data)
    requires LowerPrefix(hrp) && FiveBits(values) && |hrp| + 1 + |values| + 6 <= 90
    ensures Decoding(Encoding(hrp, values)) == Some((hrp, values))
  {
    hide Chars, Values, Checksum, Verifies, Lowered, IsUpper;
    CreatedVerifies(hrp, values);
    EncodingParts(hrp, values);
    var v := values + Checksum(hrp, values);
    CharsValues(v);
    CharsLength(v);
    var s, tail := Encoding(hrp, values), Chars(v);
    SeparatorKind();
    forall i | 0 <= i < |s|
      ensures Printable(s[i]) && !IsUpper(s[i])
    {
      assert i > |hrp| ==> s[i] == tail[i - |hrp| - 1];
    }
    LowerIsLower(hrp);
  }

  lemma DecodedHasLowerPrefix(hrp: Data, values: Data)
    requires FiveBits(values) && Decoding(Encoding(hrp, values)) == Some((hrp, values))
    ensures LowerPrefix(hrp) && |hrp| + 1 + |values| + 6 <= 90
  {
    hide Chars, Values, Checksum, Verifies, Encoding;
    EncodingParts(hrp, values);
    var s := Encoding(hrp, values);
    assert Acceptable(s) && hrp == Lowered(s[..|hrp|]);
    forall i | 0 <= i < |hrp|
      ensures Printable(hrp[i]) && !IsUpper(hrp[i])
    {
      assert hrp[i] == s[i] && hrp[i] == LowerCase(hrp[i]);
    }
  }

  // Decode gives back what was encoded if and only if the prefix is a
  // lower-case one and the string not too long.
  lemma RoundTrip(hrp: Data, values: Data)
    requires FiveBits(values)
    ensures Decoding(Encoding(hrp, values)) == Some((hrp, values)) <==>
              && 1 <= |hrp| && |hrp| + 1 + |values| + 6 <= 90
              && forall i | 0 <= i < |hrp| :: 33 <= hrp[i] <= 126 && !('A' as bv8 <= hrp[i] <= 'Z' as bv8)
  {
    hide Decoding, Encoding, LowerPrefix;
    LowerPrefixIs(hrp);
    if LowerPrefix(hrp) && |hrp| + 1 + |values| + 6 <= 90 {
      EncodedDecodes(hrp, values);
    }
    if Decoding(Encoding(hrp, values)) == Some((hrp, values)) {
      DecodedHasLowerPrefix(hrp, values);
    }
  }

  // A character of the alphabet, in either case, comes back in lower case.
  lemma CharRev(c: bv8)
    requires Rev(c) != NONE
    ensures Rev(c) < 32 && Char(Rev(c)) == LowerCase(c)
  {
    RevKinds(c);
    hide Rev, Char, LowerCase;
    if c < 0x41 {
      CharRevDigit(c);
    } else if c < 0x61 {
      CharRevUpper(c);
    } else {
      CharRevLower(c);
    }
  }

  lemma RevKinds(c: bv8)
    requires Rev(c) != NONE
    ensures 0x30 <= c <= 0x39 || IsUpper(c) || IsLower(c)
  {
  }

  lemma CharRevDigit(c: bv8)
    requires 0x30 <= c <= 0x39 && Rev(c) != NONE
    ensures Rev(c) < 32 && Char(Rev(c)) == LowerCase(c)
  {
    hide Rev, Char;
    if c <= 0x34 {
      CharRevTo4(c);
    } else {
      CharRevTo9(c);
    }
  }

  lemma CharRevTo4(c: bv8)
    requires 0x30 <= c <= 0x34 && Rev(c) != NONE
    ensures Rev(c) < 32 && Char(Rev(c)) == c
  {
  }

  lemma CharRevTo9(c: bv8)
    requires 0x35 <= c <= 0x39 && Rev(c) != NONE
    ensures Rev(c) < 32 && Char(Rev(c)) == c
  {
  }

  lemma CharRevLower(c: bv8)
    requires IsLower(c) && Rev(c) != NONE
    ensures Rev(c) < 32 && Char(Rev(c)) == LowerCase(c)
  {
    hide Rev, Char;
    if c <= 0x64 {
      CharRevToD(c);
    } else if c <= 0x67 {
      CharRevToG(c);
    } else if c <= 0x6a {
      CharRevToJ(c);
    } else if c <= 0x6d {
      CharRevToM(c);
    } else if c <= 0x70 {
      CharRevToP(c);
    } else if c <= 0x73 {
      CharRevToS(c);
    } else {
      CharRevToZ(c);
    }
  }

  lemma CharRevToD(c: bv8)
    requires 0x61 <= c <= 0x64 && Rev(c) != NONE
    ensures Rev(c) < 32 && Char(Rev(c)) == c
  {
  }

  lemma CharRevToG(c: bv8)
    requires 0x65 <= c <= 0x67 && Rev(c) != NONE
    ensures Rev(c) < 32 && Char(Rev(c)) == c
  {
  }

  lemma CharRevToJ(c: bv8)
    requires 0x68 <= c <= 0x6a && Rev(c) != NONE
    ensures Rev(c) < 32 && Char(Rev(c)) == c
  {
  }

  lemma CharRevToM(c: bv8)
    requires 0x6b <= c <= 0x6d && Rev(c) != NONE
    ensures Rev(c) < 32 && Char(Rev(c)) == c
  {
  }

  lemma CharRevToP(c: bv8)
    requires 0x6e <= c <= 0x70 && Rev(c) != NONE
    ensures Rev(c) < 32 && Char(Rev(c)) == c
  {
  }

  lemma CharRevToS(c: bv8)
    requires 0x71 <= c <= 0x73 && Rev(c) != NONE
    ensures Rev(c) < 32 && Char(Rev(c)) == c
  {
  }

  lemma CharRevToZ(c: bv8)
    requires 0x74 <= c <= 0x7a && Rev(c) != NONE
    ensures Rev(c) < 32 && Char(Rev(c)) == c
  {
  }

  // A capital has the value of its small letter.
  lemma CharRevUpper(c: bv8)
    requires IsUpper(c) && Rev(c) != NONE
    ensures Rev(c) < 32 && Char(Rev(c)) == LowerCase(c)
  {
    CapitalRev(c);
    hide Rev, Char;
    CharRevLower(LowerCase(c));
  }

  lemma CapitalRev(c: bv8)
    requires IsUpper(c)
    ensures Rev(LowerCase(c)) == Rev(c) && IsLower(LowerCase(c)) && LowerCase(LowerCase(c)) == LowerCase(c)
  {
  }

  // Only one checksum verifies.
  lemma ChecksumUnique(hrp: Data, values: Data, w: Data)
    requires FiveBits(values) && FiveBits(w) && |w| == 6 && Verifies(hrp, values + w)
    ensures w == Checksum(hrp, values)
  {
    hide Verifies, Checksum;
    CreatedVerifies(hrp, values);
    var x := Checksum(hrp, values);
    if w != x {
      assert values + x + [] == values + x && values + w + [] == values + w;
      BurstRejected(hrp, values, x, w, []);
    }
  }

  lemma ValuesBack(s: Data)
    requires NONE !in Values(s)
    ensures FiveBits(Values(s)) && Chars(Values(s)) == Lowered(s)
  {
    hide Rev, Char, LowerCase;
    forall i | 0 <= i < |s|
      ensures Rev(s[i]) < 32 && Char(Rev(s[i])) == LowerCase(s[i])
    {
      assert Values(s)[i] == Rev(s[i]);
      CharRev(s[i]);
    }
  }

  // Encoding what was decoded gives the string in lower case.
  lemma DecodeEncode(s: Data)
    requires Decoding(s).Some?
    ensures var (hrp, values) := Decoding(s).value;
            FiveBits(values) && Encoding(hrp, values) == Lowered(s)
  {
    hide Values, Chars, Checksum, Verifies, Rev, Char, Acceptable;
    var pos := LastSeparator(s, |s|);
    var hrp, all := Lowered(s[..pos]), Values(s[pos + 1..]);
    ValuesLength(s[pos + 1..]);
    ValuesBack(s[pos + 1..]);
    var values, w := all[..|all| - 6], all[|all| - 6..];
    assert all == values + w;
    ChecksumUnique(hrp, values, w);
    SeparatorFound(s, |s|);
    LoweredParts(s, pos);
  }

  lemma ValuesLength(s: Data)
    ensures |Values(s)| == |s|
  {
  }

  lemma {:induction false} SeparatorFound(s: Data, n: nat)
    requires n <= |s|
    ensures var pos := LastSeparator(s, n); (pos >= 0 ==> s[pos] == SEPARATOR) && forall i | pos < i < n :: s[i] != SEPARATOR
  {
    if n > 0 && s[n - 1] != SEPARATOR {
      SeparatorFound(s, n - 1);
    }
  }

  lemma LoweredParts(s: Data, pos: nat)
    requires pos < |s| && s[pos] == SEPARATOR
    ensures Lowered(s) == Lowered(s[..pos]) + [SEPARATOR] + Lowered(s[pos + 1..])
  {
  }

  lemma CharsLength(v: Data)
    requires FiveBits(v)
    ensures |Chars(v)| == |v|
  {
  }

  lemma SeparatorKind()
    ensures Printable(SEPARATOR) && !IsUpper(SEPARATOR)
  {
  }

  function UpperCase(c: bv8): bv8 {
    if IsLower(c) then c - 0x20 else c
  }

  ghost function Uppered(s: Data): Data {
    seq(|s|, i requires 0 <= i < |s| => UpperCase(s[i]))
  }

  lemma UpperKind(c: bv8)
    ensures Printable(UpperCase(c)) == Printable(c) && !IsLower(UpperCase(c)) && (UpperCase(c) == SEPARATOR <==> c == SEPARATOR)
    ensures LowerCase(UpperCase(c)) == LowerCase(c)
  {
  }

  lemma UpperRev(c: bv8)
    ensures Rev(UpperCase(c)) == Rev(c)
  {
  }

  lemma {:induction false} UpperSeparator(s: Data, n: nat)
    requires n <= |s|
    ensures LastSeparator(Uppered(s), n) == LastSeparator(s, n)
  {
    hide UpperCase;
    if n > 0 {
      UpperKind(s[n - 1]);
      UpperSeparator(s, n - 1);
    }
  }

  lemma UpperSame(s: Data)
    ensures Lowered(Uppered(s)) == Lowered(s) && Values(Uppered(s)) == Values(s)
  {
    hide UpperCase, LowerCase, Rev;
    forall i | 0 <= i < |s|
      ensures LowerCase(Uppered(s)[i]) == LowerCase(s[i]) && Rev(Uppered(s)[i]) == Rev(s[i])
    {
      UpperKind(s[i]);
      UpperRev(s[i]);
    }
  }

  // A string without capitals means the same all in capitals.
  lemma CapitalsMeanTheSame(s: Data)
    requires forall i | 0 <= i < |s| :: !IsUpper(s[i])
    ensures Decoding(Uppered(s)) == Decoding(s)
  {
    hide UpperCase, LowerCase, Rev, Values, Lowered, Verifies, IsLower, IsUpper, Printable;
    var t, pos := Uppered(s), LastSeparator(s, |s|);
    UpperSeparator(s, |s|);
    forall i | 0 <= i < |s|
      ensures Printable(t[i]) == Printable(s[i]) && !IsLower(t[i])
    {
      UpperKind(s[i]);
    }
    if pos > 0 {
      assert t[..pos] == Uppered(s[..pos]) && t[pos + 1..] == Uppered(s[pos + 1..]);
      UpperSame(s[..pos]);
      UpperSame(s[pos + 1..]);
    }
  }
}
