/**
 The compact format of difficulty targets: a byte count, a sign and 23 bits of
 mantissa in 32 bits; and the work that a target stands for.
 */
module Compact {
  import opened Numbers
  import opened Arith256

  const SIGN: nat := 0x80_0000
  const SIZE: nat := 0x100_0000

  function CompactSize(c: Limb): nat {
    c / SIZE
  }

  // The mantissa, without the sign bit.
  function CompactWord(c: Limb): Limb {
    c % SIGN
  }

  // 256^k.
  function Bytes(k: nat): (r: nat)
    ensures r > 0
  {
    Pow2(8 * k)
  }

  // The mantissa in use: short numbers take its high bytes only.
  function Mantissa(c: Limb): Limb {
    if CompactSize(c) <= 3 then Shr(CompactWord(c), 8 * (3 - CompactSize(c))) else CompactWord(c)
  }

  // The number a compact stands for, whatever its size.
  ghost function Exact(c: Limb): nat {
    if CompactSize(c) <= 3 then Mantissa(c) else Mantissa(c) * Bytes(CompactSize(c) - 3)
  }

  predicate IsNegative(c: Limb) {
    Mantissa(c) != 0 && (c / SIGN) % 2 == 1
  }

  predicate Overflows(c: Limb) {
    var nSize, nWord := CompactSize(c), Mantissa(c);
    nWord != 0 && (nSize > 34 || (nWord > 0xff && nSize > 33) || (nWord > 0xffff && nSize > 32))
  }

  ghost function Decoded(c: Limb): nat {
    Exact(c) % Weight(WIDTH)
  }

  method SetCompact(pn: array<Limb>, nCompact: Limb) returns (fNegative: bool, fOverflow: bool)
    requires pn.Length == WIDTH
    modifies pn
    ensures Value(pn[..]) == Decoded(nCompact)
    ensures fNegative == IsNegative(nCompact) && fOverflow == Overflows(nCompact)
  {
    hide Weight, Value, Pow2, Shr;
    var nSize, nWord := CompactSize(nCompact), CompactWord(nCompact);
    if nSize <= 3 {
      nWord := Shr(nWord, 8 * (3 - nSize));
      SetLimb(pn, nWord);
      SmallDecoded(nCompact);
    } else {
      SetLimb(pn, nWord);
      ShlAssign(pn, 8 * (nSize - 3));
    }
    fNegative := nWord != 0 && (nCompact / SIGN) % 2 == 1;
    fOverflow := nWord != 0 && (nSize > 34 || (nWord > 0xff && nSize > 33) || (nWord > 0xffff && nSize > 32));
  }

  method SetLimb(pn: array<Limb>, x: Limb)
    requires pn.Length == WIDTH
    modifies pn
    ensures Value(pn[..]) == x
  {
    pn[0] := x;
    for i := 1 to WIDTH
      invariant pn[0] == x && forall t | 1 <= t < i :: pn[t] == 0
    {
      pn[i] := 0;
    }
    hide Low;
    ZerosAbove(pn[..], 1, WIDTH);
    FirstLimb(pn[..]);
  }

  lemma BigWeight()
    ensures Weight(WIDTH) == Bytes(32) && Bytes(32) > BASE
  {
    assert Pow2(33) == 2 * Pow2(32);
    hide Pow2, Weight;
    WeightIsPow2(WIDTH);
    BaseIsPow2();
    Pow2Monotone(33, 256);
  }

  lemma SmallDecoded(c: Limb)
    requires CompactSize(c) <= 3
    ensures Decoded(c) == Mantissa(c)
  {
    hide Weight, Pow2, Shr;
    BigWeight();
    DivisionUnique(Mantissa(c), Weight(WIDTH), 0, Mantissa(c));
  }

  lemma BytesAdd(a: nat, b: nat)
    ensures Bytes(a + b) == Bytes(a) * Bytes(b)
  {
    Pow2Add(8 * a, 8 * b);
  }

  lemma SmallBytes()
    ensures Bytes(0) == 1 && Bytes(1) == 256 && Bytes(2) == 0x1_0000 && Bytes(3) == SIZE
  {
    BaseIsPow2();
    BytesAdd(1, 1);
    BytesAdd(2, 1);
  }

  lemma {:induction false} BytesMonotone(a: nat, b: nat)
    requires a <= b
    ensures Bytes(a) <= Bytes(b)
  {
    Pow2Monotone(8 * a, 8 * b);
  }

  // m * 256^k reaches 2^256 exactly when m reaches 256^(32 - k).
  lemma Reaches(m: nat, k: nat)
    requires k <= 32
    ensures m * Bytes(k) >= Weight(WIDTH) <==> m >= Bytes(32 - k)
  {
    hide Weight, Bytes;
    BigWeight();
    BytesAdd(32 - k, k);
    ReachesBy(m, Bytes(k), Bytes(32 - k));
  }

  lemma ReachesBy(m: nat, p: nat, q: nat)
    requires p > 0
    ensures m * p >= q * p <==> m >= q
  {
    if m >= q {
      ProductMonotone(p, q, m);
    } else {
      StrictProduct(p, m, q);
    }
  }

  // The overflow flag is exact: it is set just for numbers of 2^256 and more.
  lemma OverflowExact(c: Limb)
    ensures Overflows(c) <==> Exact(c) >= Weight(WIDTH)
    ensures !Overflows(c) ==> Decoded(c) == Exact(c)
  {
    hide Weight, Bytes, Shr;
    BigWeight();
    SmallBytes();
    var nSize, m := CompactSize(c), Mantissa(c);
    if nSize > 3 {
      var k := nSize - 3;
      if k <= 29 {
        BytesMonotone(3, 32 - k);
      }
      if k <= 32 {
        Reaches(m, k);
      } else {
        BytesMonotone(32, k);
        ProductMonotone(Bytes(k), if m == 0 then 0 else 1, m);
      }
    }
    if Exact(c) < Weight(WIDTH) {
      DivisionUnique(Exact(c), Weight(WIDTH), 0, Exact(c));
    }
  }

  // The documented meaning: a sign, and m * 256^(e - 3) for an exponent of eight
  // bits and a mantissa of 23, where a negative power cuts off the fraction.
  lemma DocumentedValue(e: nat, sign: nat, m: nat)
    requires e < 256 && sign < 2 && m < 0x80_0000
    ensures var c: Limb := e * 0x100_0000 + sign * 0x80_0000 + m;
            && Exact(c) == (if e < 3 then m / Pow2(8 * (3 - e)) else m * Pow2(8 * (e - 3)))
            && Decoded(c) == Exact(c) % Pow2(256)
            && (IsNegative(c) <==> sign == 1 && Mantissa(c) != 0)
  {
    hide Weight, Pow2, Shr, CompactSize, CompactWord;
    CompactParts(e, sign, m);
    BigWeight();
    SmallPowers();
    if e <= 3 {
      ShortShift(m, e);
      assert e in {0, 1, 2, 3};
    }
  }

  lemma CompactParts(e: nat, sign: nat, m: nat)
    requires e < 256 && sign < 2 && m < 0x80_0000
    ensures var c: Limb := e * 0x100_0000 + sign * 0x80_0000 + m;
            CompactSize(c) == e && CompactWord(c) == m && c / SIGN % 2 == sign
  {
    var c: Limb := e * 0x100_0000 + sign * 0x80_0000 + m;
    DivisionUnique(c, 0x100_0000, e, sign * 0x80_0000 + m);
    DivisionUnique(c, 0x80_0000, 2 * e + sign, m);
  }

  // ------------------------------------------------------------------- encoding

  lemma {:induction false} BitLengthIs(v: nat)
    ensures HasBits(v, BitLength(v))
  {
    if v > 1 {
      BitLengthIs(v / 2);
      assert BitLength(v / 2) > 0;
    } else {
      assert Pow2(0) == 1 && Pow2(1) == 2;
    }
  }

  lemma BitLengthUnique(v: nat, r: nat)
    requires HasBits(v, r)
    ensures r == BitLength(v)
  {
    var b := BitLength(v);
    BitLengthIs(v);
    hide BitLength;
    if r < b {
      Pow2Monotone(r, b - 1);
    } else if b < r {
      Pow2Monotone(b, r - 1);
    }
  }

  // Bytes needed for a number.
  function ByteLength(v: nat): nat {
    (BitLength(v) + 7) / 8
  }

  lemma ByteLengthIs(v: nat)
    ensures v == 0 ==> ByteLength(v) == 0
    ensures v > 0 ==> ByteLength(v) > 0 && Bytes(ByteLength(v) - 1) <= v < Bytes(ByteLength(v))
  {
    BitLengthIs(v);
    var b, n := BitLength(v), ByteLength(v);
    if v > 0 {
      assert b > 0;
      hide BitLength;
      Pow2Monotone(8 * (n - 1), b - 1);
      Pow2Monotone(b, 8 * n);
    }
  }

  // The highest three bytes.
  ghost function Top(v: nat): nat {
    var n := ByteLength(v);
    if n <= 3 then v * Bytes(3 - n) else Quot(v, Bytes(n - 3))
  }

  function Quot(x: nat, d: nat): nat
    requires d > 0
  {
    x / d
  }

  lemma TopRange3(v: nat)
    requires v > 0
    ensures 0x1_0000 <= Top(v) < SIZE
  {
    hide Bytes, ByteLength;
    ByteLengthIs(v);
    SmallBytes();
    var n := ByteLength(v);
    if n <= 3 {
      BytesAdd(n - 1, 3 - n);
      BytesAdd(n, 3 - n);
      Scaled(v, Bytes(n - 1), Bytes(n), Bytes(3 - n));
    } else {
      BytesAdd(2, n - 3);
      BytesAdd(3, n - 3);
      Descaled(v, Bytes(2), Bytes(3), Bytes(n - 3));
    }
  }

  lemma Scaled(v: nat, lo: nat, hi: nat, p: nat)
    requires lo <= v < hi && p > 0
    ensures lo * p <= v * p < hi * p
  {
    ProductMonotone(p, lo, v);
    StrictProduct(p, v, hi);
  }

  lemma Descaled(v: nat, lo: nat, hi: nat, p: nat)
    requires p > 0 && lo * p <= v < hi * p
    ensures lo <= Quot(v, p) < hi
  {
    var q := v / p;
    assert v == q * p + v % p;
    if q < lo {
      ProductMonotone(p, q + 1, lo);
      assert false;
    }
    if q >= hi {
      ProductMonotone(p, hi, q);
      assert false;
    }
  }

  ghost function EncodedSize(v: nat): nat {
    if Top(v) >= SIGN then ByteLength(v) + 1 else ByteLength(v)
  }

  ghost function EncodedWord(v: nat): nat {
    if Top(v) >= SIGN then Top(v) / 256 else Top(v)
  }

  // A number without its lowest bytes, as a compact; the sign on request.
  ghost function Encoded(v: nat, fNegative: bool): nat {
    EncodedSize(v) * SIZE + EncodedWord(v) + if fNegative && EncodedWord(v) != 0 then SIGN else 0
  }

  lemma EncodedFits(v: nat)
    requires v < Weight(WIDTH)
    ensures ByteLength(v) <= 32 && EncodedWord(v) < SIGN && (v > 0 ==> EncodedWord(v) >= 0x8000)
  {
    hide Weight, Bytes, Top, ByteLength;
    BigWeight();
    ByteLengthIs(v);
    if v > 0 {
      TopRange3(v);
      if ByteLength(v) > 32 {
        BytesMonotone(32, ByteLength(v) - 1);
        assert false;
      }
    } else {
      ZeroTop();
    }
  }

  lemma ZeroTop()
    ensures Top(0) == 0 && ByteLength(0) == 0
  {
    ByteLengthIs(0);
    assert 0 * Bytes(3) == 0;
  }

  method GetLow64(a: array<Limb>) returns (r: nat)
    requires a.Length == WIDTH
    ensures r == Low(a[..], 2)
    ensures Value(a[..]) < BASE ==> r == Value(a[..])
  {
    hide Low, Weight;
    FirstLimb(a[..]);
    LowNext(a[..], 1);
    OneLimbWeight();
    r := a[0] + a[1] * BASE;
    LowPart(a[..]);
  }

  lemma OneLimbWeight()
    ensures Weight(1) == BASE
  {
    assert Weight(1) == BASE * Weight(0);
  }

  lemma LowPart(a: seq<Limb>)
    requires |a| == WIDTH
    ensures Value(a) < BASE ==> Value(a) == Low(a, 2)
  {
    hide Low;
    var h := LowSplit(a, 2, WIDTH);
    assert Weight(2) == BASE * (BASE * 1);
    if h >= 1 {
      ProductMonotone(Weight(2), 1, h);
    }
  }

  method GetCompact(a: array<Limb>, fNegative: bool) returns (c: Limb)
    requires a.Length == WIDTH
    ensures c == Encoded(Value(a[..]), fNegative)
  {
    hide Value, Weight, Low, Bytes, BitLength, Pow2, Top, EncodedWord, HasBits;
    ghost var v := Value(a[..]);
    var bits := Bits(a);
    BitLengthUnique(v, bits);
    BelowWeight(a[..]);
    EncodedFits(v);
    var nSize := (bits + 7) / 8;
    var nCompact: nat;
    TopFits(v);
    if nSize <= 3 {
      nCompact := GetLow64(a);
      nCompact := nCompact * Bytes(3 - nSize);
    } else {
      var bn := Copy(a);
      ShrAssign(bn, 8 * (nSize - 3));
      nCompact := GetLow64(bn);
    }
    assert nCompact == Top(v);
    EncodedIs(v);
    if (nCompact / SIGN) % 2 == 1 {
      nCompact := nCompact / 256;
      nSize := nSize + 1;
    }
    assert nCompact < SIGN && nSize < 256;
    c := nSize * SIZE + nCompact + if fNegative && nCompact != 0 then SIGN else 0;
  }

  lemma EncodedIs(v: nat)
    requires Top(v) < SIZE
    ensures EncodedWord(v) == if (Top(v) / SIGN) % 2 == 1 then Top(v) / 256 else Top(v)
    ensures EncodedSize(v) == if (Top(v) / SIGN) % 2 == 1 then ByteLength(v) + 1 else ByteLength(v)
  {
    hide Top, ByteLength;
  }

  lemma BelowWeight(a: seq<Limb>)
    requires |a| == WIDTH
    ensures Value(a) < Weight(WIDTH)
  {
    LowBound(a, WIDTH);
  }

  // The three bytes are below 2^24, and so is a number of three bytes.
  lemma TopFits(v: nat)
    ensures Top(v) < SIZE && (ByteLength(v) <= 3 ==> v < BASE && Top(v) == v * Bytes(3 - ByteLength(v)))
    ensures ByteLength(v) > 3 ==> Top(v) == v / Pow2(8 * (ByteLength(v) - 3))
  {
    hide Bytes, ByteLength;
    ByteLengthIs(v);
    SmallBytes();
    if v > 0 {
      TopRange3(v);
      if ByteLength(v) <= 3 {
        BytesMonotone(ByteLength(v), 3);
      }
    } else {
      ZeroTop();
    }
    BytesIs(v);
  }

  lemma BytesIs(v: nat)
    ensures ByteLength(v) > 3 ==> Bytes(ByteLength(v) - 3) == Pow2(8 * (ByteLength(v) - 3))
  {
  }

  // ----------------------------------------------------------- the two together

  // What is left of a number after encoding: its highest bytes.
  lemma EncodedParts(v: nat)
    requires v < Weight(WIDTH)
    ensures Encoded(v, false) < BASE
    ensures CompactSize(Encoded(v, false)) == EncodedSize(v) && CompactWord(Encoded(v, false)) as nat == EncodedWord(v)
    ensures !IsNegative(Encoded(v, false))
  {
    hide Weight, Top, ByteLength, EncodedWord, Shr;
    EncodedFits(v);
  }

  // The encoding of short numbers loses nothing, except that three full bytes
  // lose the last one.
  lemma ShortExact(v: nat)
    requires v < Weight(WIDTH) && ByteLength(v) <= 3
    ensures Encoded(v, false) < BASE
    ensures EncodedSize(v) <= 3 ==> Exact(Encoded(v, false)) == v
  {
    hide Weight, Bytes, ByteLength, Shr, Top;
    EncodedParts(v);
    SmallBytes();
    TopFits(v);
    EncodedFits(v);
    var n := ByteLength(v);
    assert n in {0, 1, 2, 3};
    var e := EncodedSize(v);
    if e <= 3 {
      assert e in {0, 1, 2, 3};
      ShortShift(EncodedWord(v), e);
      EncodedIs(v);
    }
  }

  lemma ShortShift(w: nat, e: nat)
    requires w < SIGN && e <= 3
    ensures Shr(w, 8 * (3 - e)) as nat == w / (if e == 3 then 1 else if e == 2 then 0x100 else if e == 1 then 0x1_0000 else SIZE)
  {
    SmallBytes();
    assert e in {0, 1, 2, 3};
    hide Pow2, Bytes;
    SmallPowers();
  }

  // Long numbers keep the quotient by the bytes that are dropped.
  lemma LongWord(v: nat)
    requires v < Weight(WIDTH) && EncodedSize(v) > 3
    ensures EncodedWord(v) == v / Bytes(EncodedSize(v) - 3)
  {
    hide Weight, Bytes, ByteLength;
    SmallBytes();
    var n := ByteLength(v);
    if n <= 3 {
      assert n == 3;
    } else if Top(v) >= SIGN {
      BytesAdd(n - 3, 1);
      QuotientOfQuotient(v, Bytes(n - 3), 256);
    }
  }

  // Decoding what was encoded gives the number cut off below: never more, and
  // less by under a 2^-15 part of the result.
  lemma CompactRoundTrip(v: nat)
    requires v < Weight(WIDTH)
    ensures Encoded(v, false) < BASE
    ensures var c: Limb := Encoded(v, false);
            && !IsNegative(c) && !Overflows(c) && Decoded(c) <= v
            && (v > 0 ==> (v - Decoded(c)) * 0x8000 < Decoded(c))
  {
    hide Weight, Bytes, ByteLength, Shr, Top, EncodedWord;
    EncodedParts(v);
    EncodedFits(v);
    var c: Limb := Encoded(v, false);
    if EncodedSize(v) <= 3 {
      ShortSize(v);
      ShortExact(v);
    } else {
      LongWord(v);
      var p := Bytes(EncodedSize(v) - 3);
      Kept(v, p, EncodedWord(v));
      assert Exact(c) == EncodedWord(v) * p;
    }
    OverflowExact(c);
  }

  // With the sign asked for, the same number comes back negative, but for zero.
  lemma SignRoundTrip(v: nat)
    requires v < Weight(WIDTH)
    ensures Encoded(v, true) < BASE
    ensures var c: Limb, d: Limb := Encoded(v, true), Encoded(v, false);
            Decoded(c) == Decoded(d) && !Overflows(c) && (IsNegative(c) <==> v > 0)
  {
    hide Weight, Bytes, ByteLength, Shr, Top, EncodedWord, Decoded;
    CompactRoundTrip(v);
    EncodedParts(v);
    EncodedFits(v);
    SignParts(v);
    var c: Limb, d: Limb := Encoded(v, true), Encoded(v, false);
    assert Mantissa(c) == Mantissa(d);
    SameDecoded(c, d);
    ZeroMantissa(d);
    ZeroWord();
  }

  lemma ZeroWord()
    ensures EncodedWord(0) == 0
  {
    hide Top, ByteLength;
    ZeroTop();
  }

  lemma SignParts(v: nat)
    requires v < Weight(WIDTH)
    ensures Encoded(v, true) < BASE
    ensures CompactSize(Encoded(v, true)) == EncodedSize(v) && CompactWord(Encoded(v, true)) as nat == EncodedWord(v)
    ensures (Encoded(v, true) / SIGN) % 2 == 1 <==> EncodedWord(v) != 0
  {
    hide Weight, Top, ByteLength, EncodedWord, Shr;
    EncodedFits(v);
  }

  lemma SameDecoded(c: Limb, d: Limb)
    requires CompactSize(c) == CompactSize(d) && CompactWord(c) == CompactWord(d)
    ensures Decoded(c) == Decoded(d)
  {
  }

  lemma ZeroMantissa(c: Limb)
    ensures Mantissa(c) == 0 ==> Decoded(c) == 0
  {
    hide Shr, Weight, Bytes;
  }

  lemma ShortSize(v: nat)
    requires EncodedSize(v) <= 3
    ensures ByteLength(v) <= 3
  {
    hide ByteLength, Top;
  }

  lemma Kept(v: nat, p: nat, m: nat)
    requires p > 0 && m == v / p
    ensures m * p <= v && (m >= 0x8000 ==> (v - m * p) * 0x8000 < m * p)
  {
    assert v == m * p + v % p;
    if m >= 0x8000 {
      ProductMonotone(p, 0x8000, m);
    }
  }

  // --------------------------------------------------------------- GetBlockProof

  // A decoded target is never 2^256 - 1: it is short, or a multiple of 256.
  lemma RoomForOne(c: Limb)
    requires !Overflows(c)
    ensures Decoded(c) + 1 < Weight(WIDTH)
  {
    hide Weight, Bytes, Shr;
    OverflowExact(c);
    BigWeight();
    SmallBytes();
    if CompactSize(c) > 3 {
      var k := CompactSize(c) - 3;
      BytesAdd(1, k - 1);
      BytesAdd(1, 31);
      NotLast(Mantissa(c), Bytes(k - 1), Bytes(31));
    }
  }

  lemma NotLast(m: nat, p: nat, w: nat)
    requires m * (256 * p) < 256 * w
    ensures m * (256 * p) + 1 < 256 * w
  {
    assert m * (256 * p) == 256 * (m * p);
  }

  // The expected number of hashes behind a block: 2^256 / (target + 1), without
  // a 257th bit.
  method GetBlockProof(nBits: Limb) returns (r: array<Limb>)
    ensures r.Length == WIDTH && fresh(r)
    ensures var t := Decoded(nBits);
            Value(r[..]) == if IsNegative(nBits) || Overflows(nBits) || t == 0 then 0 else Weight(WIDTH) / (t + 1)
  {
    hide Weight, Value, Exact, Low;
    var bnTarget := new Limb[WIDTH](_ => 0);
    var fNegative, fOverflow := SetCompact(bnTarget, nBits);
    ghost var t := Decoded(nBits);
    var zero := new Limb[WIDTH](_ => 0);
    SetZero(zero);
    var c := CompareTo(bnTarget, zero);
    if fNegative || fOverflow || c == 0 {
      return zero;
    }
    RoomForOne(nBits);
    r := Complement(bnTarget);
    var d := Copy(bnTarget);
    SetLimb(zero, 1);
    AddAssign(d, zero);
    DivisionUnique(t + 1, Weight(WIDTH), 0, t + 1);
    var ok := DivAssign(r, d);
    assert ok;
    ProofArithmetic(Weight(WIDTH), t);
    AddAssign(r, zero);
  }

  lemma ProofArithmetic(m: nat, t: nat)
    requires 0 < t && t + 1 < m
    ensures ((m - 1 - t) / (t + 1) + 1) % m == m / (t + 1)
  {
    var q, r := (m - 1 - t) / (t + 1), (m - 1 - t) % (t + 1);
    assert m == (q + 1) * (t + 1) + r;
    DivisionUnique(m, t + 1, q + 1, r);
    ProductMonotone(q + 1, 2, t + 1);
    DivisionUnique(q + 1, m, 0, q + 1);
  }
}
