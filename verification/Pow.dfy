/**
 Difficulty: the target a block must meet, from the blocks before it, across
 the fork to the post-quantum chain.  A chain is the sequence of its headers,
 indexed by height.
 */
module Pow {
  import opened Numbers
  import opened Arith256
  import opened Compact

  datatype Header = Header(nBits: Limb, nTime: int)

  type Uint256 = s: seq<Limb> | |s| == WIDTH witness [0, 0, 0, 0, 0, 0, 0, 0]

  /** Consensus::Params, as far as difficulty goes. */
  datatype Params = Params(bpqHeight: nat, bpqPremineWindow: nat, powLimit: Uint256, powLimitLegacy: Uint256,
                           fPowAllowMinDifficultyBlocks: bool, fPowNoRetargeting: bool,
                           nPowTargetSpacing: nat, nPowTargetTimespan: nat) {
    function PowLimit(postfork: bool): Uint256 {
      if postfork then powLimit else powLimitLegacy
    }

    function Interval(): nat
      requires nPowTargetSpacing > 0
    {
      nPowTargetTimespan / nPowTargetSpacing
    }

    // Time spans are positive, four of them fit into 32 bits, and there is a
    // premine window: so on every network of the program.
    predicate Sound() {
      0 < nPowTargetSpacing <= nPowTargetTimespan && 4 * nPowTargetTimespan < BASE && bpqPremineWindow > 0
    }

    // Low difficulty lasts to the first interval after the premine window.
    function LowDiffHeight(): nat
      requires Sound()
    {
      IntervalPositive(nPowTargetTimespan, nPowTargetSpacing);
      ((bpqHeight + bpqPremineWindow - 1) / Interval() + 1) * Interval()
    }
  }

  lemma IntervalPositive(t: nat, s: nat)
    requires 0 < s <= t
    ensures t / s >= 1
  {
    DivisionAtLeast(t, s, 1);
  }

  lemma DivisionAtLeast(t: nat, s: nat, k: nat)
    requires 0 < s && k * s <= t
    ensures t / s >= k
  {
    assert t == (t / s) * s + t % s;
    if t / s < k {
      ProductMonotone(s, t / s + 1, k);
      assert false;
    }
  }

  // -------------------------------------------------------------- one retarget

  // The time span that counts: at least a quarter of the aim, at most four times.
  function Clamped(p: Params, span: int): (r: Limb)
    requires p.Sound()
    ensures p.nPowTargetTimespan / 4 <= r <= 4 * p.nPowTargetTimespan
  {
    if span < p.nPowTargetTimespan / 4 then p.nPowTargetTimespan / 4
    else if span > p.nPowTargetTimespan * 4 then p.nPowTargetTimespan * 4
    else span
  }

  // Before the fork the product comes first, afterwards the quotient.
  ghost function Scaled256(p: Params, target: nat, span: nat, postfork: bool): nat
    requires p.Sound()
  {
    if !postfork then Quot(target * span % Weight(WIDTH), p.nPowTargetTimespan)
    else Quot(target, p.nPowTargetTimespan) * span % Weight(WIDTH)
  }

  ghost function Retargeted(p: Params, bits: Limb, span: int, postfork: bool): nat
    requires p.Sound()
  {
    var new_, limit := Scaled256(p, Decoded(bits), Clamped(p, span), postfork), Value(p.PowLimit(postfork));
    if new_ > limit then limit else new_
  }

  lemma RetargetedFits(p: Params, bits: Limb, span: int, postfork: bool)
    requires p.Sound()
    ensures Retargeted(p, bits, span, postfork) < Weight(WIDTH)
  {
    hide Value, Weight, Scaled256, Decoded;
    BelowWeight(p.PowLimit(postfork));
  }

  // The compact of the proof-of-work limit.
  ghost function LimitBits(p: Params, postfork: bool): Limb {
    BelowWeight(p.PowLimit(postfork));
    EncodedParts(Value(p.PowLimit(postfork)));
    Encoded(Value(p.PowLimit(postfork)), false)
  }

  ghost function CalculatedBits(p: Params, last: Header, nFirstBlockTime: int, postfork: bool): Limb
    requires p.Sound()
  {
    if p.fPowNoRetargeting then last.nBits
    else
      var v := Retargeted(p, last.nBits, last.nTime - nFirstBlockTime, postfork);
      RetargetedFits(p, last.nBits, last.nTime - nFirstBlockTime, postfork);
      EncodedParts(v);
      Encoded(v, false)
  }

  method FromLimbs(s: Uint256) returns (a: array<Limb>)
    ensures fresh(a) && a.Length == WIDTH && a[..] == s
  {
    a := new Limb[WIDTH](i requires 0 <= i < WIDTH => s[i]);
  }

  method CalculateNextWorkRequired(p: Params, last: Header, nFirstBlockTime: int, postfork: bool) returns (bits: Limb)
    requires p.Sound()
    ensures bits == CalculatedBits(p, last, nFirstBlockTime, postfork)
  {
    hide Value, Weight, Decoded, Encoded, Quot;
    if p.fPowNoRetargeting {
      return last.nBits;
    }
    var nActualTimespan := last.nTime - nFirstBlockTime;
    if nActualTimespan < p.nPowTargetTimespan / 4 {
      nActualTimespan := p.nPowTargetTimespan / 4;
    }
    if nActualTimespan > p.nPowTargetTimespan * 4 {
      nActualTimespan := p.nPowTargetTimespan * 4;
    }
    var bnPowLimit := FromLimbs(p.PowLimit(postfork));
    var bnNew := new Limb[WIDTH](_ => 0);
    var _, _ := SetCompact(bnNew, last.nBits);
    var bnTimespan := new Limb[WIDTH](_ => 0);
    SetLimb(bnTimespan, p.nPowTargetTimespan);
    QuotIs(Value(bnNew[..]), p.nPowTargetTimespan);
    if !postfork {
      MulAssign32(bnNew, nActualTimespan);
      QuotIs(Value(bnNew[..]), p.nPowTargetTimespan);
      var ok := DivAssign(bnNew, bnTimespan);
      assert ok;
    } else {
      var ok := DivAssign(bnNew, bnTimespan);
      assert ok;
      MulAssign32(bnNew, nActualTimespan);
    }
    var c := CompareTo(bnNew, bnPowLimit);
    if c > 0 {
      bnNew := bnPowLimit;
    }
    bits := GetCompact(bnNew, false);
  }

  lemma QuotIs(x: nat, d: nat)
    requires d > 0
    ensures Quot(x, d) == x / d
  {
  }

  // ----------------------------------------------------- the target of the next block

  // Testnet: the last block that did not use the minimum-difficulty rule.
  ghost function LastNormal(p: Params, chain: seq<Header>, h: nat, limit: Limb): Limb
    requires p.Sound() && h < |chain|
  {
    IntervalPositive(p.nPowTargetTimespan, p.nPowTargetSpacing);
    if h > 0 && h % p.Interval() != 0 && chain[h].nBits == limit then LastNormal(p, chain, h - 1, limit) else chain[h].nBits
  }

  predicate LowDifficulty(p: Params, h: nat)
    requires p.Sound()
  {
    p.bpqHeight <= h < p.LowDiffHeight()
  }

  predicate IsRetarget(p: Params, h: nat)
    requires p.Sound()
  {
    IntervalPositive(p.nPowTargetTimespan, p.nPowTargetSpacing);
    h % p.Interval() == 0
  }

  ghost function NextBits(p: Params, chain: seq<Header>, nBlockTime: int): Limb
    requires p.Sound() && |chain| > 0
  {
    var h, last := |chain|, chain[|chain| - 1];
    var postfork := h >= p.bpqHeight;
    if LowDifficulty(p, h) then LimitBits(p, postfork)
    else if !IsRetarget(p, h) then
      if !p.fPowAllowMinDifficultyBlocks then last.nBits
      else if nBlockTime > last.nTime + p.nPowTargetSpacing * 2 then LimitBits(p, postfork)
      else LastNormal(p, chain, h - 1, LimitBits(p, postfork))
    else
      FirstOfInterval(p, h);
      CalculatedBits(p, last, chain[h - p.Interval()].nTime, postfork)
  }

  // A retarget has a whole interval of blocks behind it.
  lemma FirstOfInterval(p: Params, h: nat)
    requires p.Sound() && h > 0 && IsRetarget(p, h)
    ensures 1 <= p.Interval() <= h
  {
    IntervalPositive(p.nPowTargetTimespan, p.nPowTargetSpacing);
    if h < p.Interval() {
      DivisionUnique(h, p.Interval(), 0, h);
    }
  }

  method GetNextWorkRequired(p: Params, chain: seq<Header>, nBlockTime: int) returns (bits: Limb)
    requires p.Sound() && |chain| > 0
    ensures bits == NextBits(p, chain, nBlockTime)
  {
    hide Value, Encoded, CalculatedBits;
    var nHeight := |chain|;
    var last := chain[|chain| - 1];
    var postfork := nHeight >= p.bpqHeight;
    IntervalPositive(p.nPowTargetTimespan, p.nPowTargetSpacing);
    var bnLimit := FromLimbs(p.PowLimit(postfork));
    var nProofOfWorkLimit := GetCompact(bnLimit, false);
    if postfork && nHeight < p.LowDiffHeight() {
      return nProofOfWorkLimit;
    }
    if nHeight % p.Interval() != 0 {
      if p.fPowAllowMinDifficultyBlocks {
        if nBlockTime > last.nTime + p.nPowTargetSpacing * 2 {
          return nProofOfWorkLimit;
        }
        var h := nHeight - 1;
        while h > 0 && h % p.Interval() != 0 && chain[h].nBits == nProofOfWorkLimit
          invariant 0 <= h < nHeight
          invariant LastNormal(p, chain, h, nProofOfWorkLimit) == LastNormal(p, chain, nHeight - 1, nProofOfWorkLimit)
        {
          h := h - 1;
        }
        return chain[h].nBits;
      }
      return last.nBits;
    }
    FirstOfInterval(p, nHeight);
    var nHeightFirst := nHeight - 1 - (p.Interval() - 1);
    assert nHeightFirst >= 0;
    bits := CalculateNextWorkRequired(p, last, chain[nHeightFirst].nTime, postfork);
  }

  // ---------------------------------------------------------------- whole chains

  // Difficulty is always retargeted, and four times the limit of either era,
  // scaled the way the era scales, stays below 2^256.
  ghost predicate MainStyle(p: Params) {
    && p.Sound() && !p.fPowAllowMinDifficultyBlocks && !p.fPowNoRetargeting
    && Value(p.powLimitLegacy) * (4 * p.nPowTargetTimespan) < Weight(WIDTH)
    && Value(p.powLimit) * 4 < Weight(WIDTH)
  }

  const POW_LIMIT: Uint256 :=
    [0xffff_ffff, 0xffff_ffff, 0xffff_ffff, 0xffff_ffff, 0xffff_ffff, 0xffff_ffff, 0xffff_ffff, 0x00ff_ffff]
  const POW_LIMIT_LEGACY: Uint256 :=
    [0xffff_ffff, 0xffff_ffff, 0xffff_ffff, 0xffff_ffff, 0xffff_ffff, 0xffff_ffff, 0xffff_ffff, 0]

  const MAIN: Params := Params(555000, 48, POW_LIMIT, POW_LIMIT_LEGACY, false, false, 10 * 60, 14 * 24 * 60 * 60)

  lemma MainIsMainStyle()
    ensures MainStyle(MAIN)
  {
    hide Low, Weight;
    var w := Weight(7);
    WeightStep(7);
    LowNext(POW_LIMIT, 7);
    LowBound(POW_LIMIT, 7);
    LowNext(POW_LIMIT_LEGACY, 7);
    LowBound(POW_LIMIT_LEGACY, 7);
    StrictProduct(4 * MAIN.nPowTargetTimespan, Value(POW_LIMIT_LEGACY), w);
    ProductMonotone(w, 4 * MAIN.nPowTargetTimespan, BASE);
  }

  // A target that may be decoded and is within the limit of its height.
  ghost predicate Legal(p: Params, h: nat, bits: Limb) {
    !IsNegative(bits) && !Overflows(bits) && Decoded(bits) <= Value(p.PowLimit(h >= p.bpqHeight))
  }

  // Every block but the first asks for the target its predecessors demand.
  ghost predicate Produced(p: Params, chain: seq<Header>)
    requires p.Sound()
  {
    forall h | 0 < h < |chain| :: chain[h].nBits == NextBits(p, chain[..h], chain[h].nTime)
  }

  lemma LowDiffPastFork(p: Params)
    requires p.Sound()
    ensures p.LowDiffHeight() > p.bpqHeight
  {
    IntervalPositive(p.nPowTargetTimespan, p.nPowTargetSpacing);
    var x, i := p.bpqHeight + p.bpqPremineWindow - 1, p.Interval();
    assert x == (x / i) * i + x % i;
    assert (x / i + 1) * i == (x / i) * i + i;
  }

  lemma LimitBitsLegal(p: Params, h: nat)
    ensures Legal(p, h, LimitBits(p, h >= p.bpqHeight))
  {
    hide Value, Weight, Encoded, Decoded;
    var v := Value(p.PowLimit(h >= p.bpqHeight));
    BelowWeight(p.PowLimit(h >= p.bpqHeight));
    CompactRoundTrip(v);
  }

  // One retarget: no product reaches 2^256, and the target at most quadruples.
  lemma ScaledBounded(p: Params, target: nat, span: nat, postfork: bool)
    requires MainStyle(p) && target <= Value(p.PowLimit(postfork)) && span <= 4 * p.nPowTargetTimespan
    ensures (if !postfork then target * span else Quot(target, p.nPowTargetTimespan) * span) < Weight(WIDTH)
    ensures Scaled256(p, target, span, postfork) <= 4 * target
  {
    hide Value, Weight;
    var t, m := p.nPowTargetTimespan, Weight(WIDTH);
    if !postfork {
      QuarterFirst(target, span, t, Value(p.powLimitLegacy), m);
    } else {
      QuarterLast(target, span, t, Value(p.powLimit), m);
    }
  }

  lemma QuarterFirst(target: nat, span: nat, t: nat, limit: nat, m: nat)
    requires t > 0 && target <= limit && span <= 4 * t && limit * (4 * t) < m
    ensures target * span < m && Quot(target * span % m, t) <= 4 * target
  {
    ProductMonotone(target, span, 4 * t);
    ProductMonotone(4 * t, target, limit);
    DivisionUnique(target * span, m, 0, target * span);
    assert target * (4 * t) == (4 * target) * t;
    AtMostQuotient(target * span, t, 4 * target);
  }

  lemma QuarterLast(target: nat, span: nat, t: nat, limit: nat, m: nat)
    requires t > 0 && target <= limit && span <= 4 * t && limit * 4 < m
    ensures Quot(target, t) * span < m && Quot(target, t) * span % m <= 4 * target
  {
    var q := Quot(target, t);
    assert q * t <= target;
    ProductMonotone(q, span, 4 * t);
    assert q * (4 * t) == 4 * (q * t);
    DivisionUnique(q * span, m, 0, q * span);
  }

  lemma AtMostQuotient(x: nat, t: nat, k: nat)
    requires t > 0 && x <= k * t
    ensures Quot(x, t) <= k
  {
    assert x == (x / t) * t + x % t;
    if x / t > k {
      ProductMonotone(t, k + 1, x / t);
      assert false;
    }
  }

  lemma CalculatedLegal(p: Params, h: nat, last: Header, first: int)
    requires MainStyle(p) && Legal(p, h, last.nBits)
    ensures Legal(p, h, CalculatedBits(p, last, first, h >= p.bpqHeight))
    ensures Decoded(CalculatedBits(p, last, first, h >= p.bpqHeight)) <= 4 * Decoded(last.nBits)
  {
    hide Value, Weight, Encoded, Decoded, Scaled256, IsNegative, Overflows, Clamped;
    var postfork, span := h >= p.bpqHeight, last.nTime - first;
    var v := Retargeted(p, last.nBits, span, postfork);
    RetargetedFits(p, last.nBits, span, postfork);
    ScaledBounded(p, Decoded(last.nBits), Clamped(p, span), postfork);
    CompactRoundTrip(v);
  }

  // The scaled target is not rounded down to zero.
  predicate Survives(p: Params, target: nat, span: nat, postfork: bool) {
    if !postfork then target * span >= p.nPowTargetTimespan else target >= p.nPowTargetTimespan
  }

  lemma ScaledPositive(p: Params, target: nat, span: nat, postfork: bool)
    requires MainStyle(p) && target <= Value(p.PowLimit(postfork)) && 0 < span <= 4 * p.nPowTargetTimespan
    ensures Scaled256(p, target, span, postfork) > 0 <==> Survives(p, target, span, postfork)
  {
    hide Value, Weight, Quot;
    var t := p.nPowTargetTimespan;
    ScaledBounded(p, target, span, postfork);
    if !postfork {
      DivisionUnique(target * span, Weight(WIDTH), 0, target * span);
      PositiveQuotient(target * span, t);
    } else {
      var q := Quot(target, t);
      DivisionUnique(q * span, Weight(WIDTH), 0, q * span);
      PositiveQuotient(target, t);
      ProductMonotone(span, if q > 0 then 1 else 0, q);
    }
  }

  // A retarget keeps the target positive, so that a block can meet it at all,
  // exactly if the scaled target is not rounded down to zero.
  lemma PositiveTarget(p: Params, h: nat, last: Header, first: int)
    requires MainStyle(p) && Legal(p, h, last.nBits) && p.nPowTargetTimespan >= 4
    requires Value(p.PowLimit(h >= p.bpqHeight)) > 0
    ensures var bits := CalculatedBits(p, last, first, h >= p.bpqHeight);
            Decoded(bits) > 0 <==> Survives(p, Decoded(last.nBits), Clamped(p, last.nTime - first), h >= p.bpqHeight)
  {
    hide Value, Weight, Encoded, Decoded, IsNegative, Overflows, Clamped, Scaled256, Survives;
    var postfork, span := h >= p.bpqHeight, Clamped(p, last.nTime - first);
    var v := Retargeted(p, last.nBits, last.nTime - first, postfork);
    RetargetedFits(p, last.nBits, last.nTime - first, postfork);
    ScaledPositive(p, Decoded(last.nBits), span, postfork);
    CompactRoundTrip(v);
  }

  // On the main network past the fork, a target of one becomes zero at the next
  // retarget, however long the interval took.
  lemma TargetVanishes(nTime: int, first: int)
    ensures Decoded(0x0101_0000) == 1
    ensures MAIN.Sound() && Decoded(CalculatedBits(MAIN, Header(0x0101_0000, nTime), first, true)) == 0
  {
    MainIsMainStyle();
    OneIsCompact();
    LimitAtLeastOne();
    hide Value, Weight, Encoded, Decoded, IsNegative, Overflows, Clamped, CalculatedBits;
    PositiveTarget(MAIN, MAIN.bpqHeight, Header(0x0101_0000, nTime), first);
  }

  lemma OneIsCompact()
    ensures Decoded(0x0101_0000) == 1 && !IsNegative(0x0101_0000) && !Overflows(0x0101_0000)
  {
    hide Weight;
    SmallPowers();
    SmallDecoded(0x0101_0000);
  }

  lemma LimitAtLeastOne()
    ensures Value(POW_LIMIT) >= 1
  {
    hide Weight;
    WeightStep(7);
    LowNext(POW_LIMIT, 7);
  }

  lemma PositiveQuotient(x: nat, t: nat)
    requires t > 0
    ensures Quot(x, t) > 0 <==> x >= t
  {
    if x >= t {
      DivisionAtLeast(x, t, 1);
    } else {
      DivisionUnique(x, t, 0, x);
    }
  }

  // The target that a retarget aims at, and how it follows the time s that the
  // last interval took of the time t that it should: before the fork it is
  // target * s / t, rounded down, and after it (target / t) * s.  Where s is below
  // a quarter of t or above four times, that bound takes its place.
  lemma RetargetFollowsTime(p: Params, h: nat, last: Header, first: int) returns (v: nat)
    requires MainStyle(p) && Legal(p, h, last.nBits)
    ensures var t, s, target := p.nPowTargetTimespan, last.nTime - first, Decoded(last.nBits);
            && (t / 4 <= s <= 4 * t ==> Proportional(v, target, s, t, h >= p.bpqHeight))
            && (s < t / 4 ==> Proportional(v, target, t / 4, t, h >= p.bpqHeight))
            && (s > 4 * t ==> Proportional(v, target, 4 * t, t, h >= p.bpqHeight))
    ensures AimedAt(p, h, v, CalculatedBits(p, last, first, h >= p.bpqHeight))
  {
    hide Value, Weight, Encoded, Decoded, IsNegative, Overflows, Scaled256;
    var postfork, span := h >= p.bpqHeight, Clamped(p, last.nTime - first);
    v := Scaled256(p, Decoded(last.nBits), span, postfork);
    ScaledExact(p, Decoded(last.nBits), span, postfork);
    var w := Retargeted(p, last.nBits, last.nTime - first, postfork);
    RetargetedFits(p, last.nBits, last.nTime - first, postfork);
    CompactRoundTrip(w);
  }

  // v is the share s / t of the target, as the era rounds it.
  predicate Proportional(v: nat, target: nat, s: int, t: nat, postfork: bool) {
    t > 0 && if postfork then v == (target / t) * s else v * t <= target * s < (v + 1) * t
  }

  // The compact holds v, or the limit if v is above it, but for a 2^-15 part.
  ghost predicate AimedAt(p: Params, h: nat, v: nat, bits: Limb) {
    var aim, limit := Decoded(bits), Value(if h < p.bpqHeight then p.powLimitLegacy else p.powLimit);
    if v <= limit then aim <= v && (v > 0 ==> (v - aim) * 0x8000 < aim)
    else aim <= limit && (limit > 0 ==> (limit - aim) * 0x8000 < aim)
  }

  lemma ScaledExact(p: Params, target: nat, span: nat, postfork: bool)
    requires MainStyle(p) && target <= Value(p.PowLimit(postfork)) && span <= 4 * p.nPowTargetTimespan
    ensures Proportional(Scaled256(p, target, span, postfork), target, span, p.nPowTargetTimespan, postfork)
  {
    hide Value, Weight, Quot;
    var t := p.nPowTargetTimespan;
    ScaledBounded(p, target, span, postfork);
    if !postfork {
      DivisionUnique(target * span, Weight(WIDTH), 0, target * span);
      QuotIs(target * span, t);
      QuotientRemainder(target * span, t);
      RoundedDown(target * span, t, target * span / t);
    } else {
      QuotIs(target, t);
      var q := target / t;
      DivisionUnique(q * span, Weight(WIDTH), 0, q * span);
    }
  }

  lemma RoundedDown(x: nat, t: nat, v: nat)
    requires t > 0 && v == x / t
    ensures v * t <= x < (v + 1) * t
  {
    assert x == t * v + x % t;
    assert (v + 1) * t == v * t + t;
  }

  // A slower interval never leads to a lower target.
  lemma SlowerIsEasier(target: nat, t: nat, s: nat, s': nat, v: nat, v': nat, postfork: bool)
    requires Proportional(v, target, s, t, postfork) && Proportional(v', target, s', t, postfork) && s <= s'
    ensures v <= v'
  {
    ProductMonotone(target, s, s');
    if postfork {
      ProductMonotone(target / t, s, s');
    } else if v' < v {
      ProductMonotone(t, v' + 1, v);
    }
  }

  // Low difficulty ends at the first retarget after the premine window.
  lemma LowDiffToRetarget(p: Params)
    requires p.Sound()
    ensures var interval := p.nPowTargetTimespan / p.nPowTargetSpacing;
            interval > 0 && p.LowDiffHeight() % interval == 0
            && p.bpqHeight + p.bpqPremineWindow <= p.LowDiffHeight() < p.bpqHeight + p.bpqPremineWindow + interval
  {
    IntervalPositive(p.nPowTargetTimespan, p.nPowTargetSpacing);
    var x, i := p.bpqHeight + p.bpqPremineWindow - 1, p.Interval();
    QuotientRemainder(x, i);
    assert (x / i + 1) * i == (x / i) * i + i;
    ModuloMultiple(0, i, x / i + 1);
    assert 0 + (x / i + 1) * i == p.LowDiffHeight();
  }

  // The targets of a chain, block by block: the limit while difficulty is low,
  // the parent's target between retargets, and at a retarget the parent's target
  // in the share of time from the first block of the last interval to its last.
  lemma ChainTargets(p: Params, chain: seq<Header>, h: nat) returns (v: nat)
    requires MainStyle(p) && Produced(p, chain) && 0 < h < |chain| && Legal(p, 0, chain[0].nBits)
    ensures var interval := p.nPowTargetTimespan / p.nPowTargetSpacing;
            && interval > 0
            && if p.bpqHeight <= h < p.LowDiffHeight() then
                 AimedAt(p, h, Value(p.powLimit), chain[h].nBits)
               else if h % interval != 0 then
                 chain[h].nBits == chain[h - 1].nBits
               else
                 && interval <= h && AimedAt(p, h, v, chain[h].nBits)
                 && var t, s, target := p.nPowTargetTimespan, chain[h - 1].nTime - chain[h - interval].nTime, Decoded(chain[h - 1].nBits);
                    && (t / 4 <= s <= 4 * t ==> Proportional(v, target, s, t, h >= p.bpqHeight))
                    && (s < t / 4 ==> Proportional(v, target, t / 4, t, h >= p.bpqHeight))
                    && (s > 4 * t ==> Proportional(v, target, 4 * t, t, h >= p.bpqHeight))
  {
    hide Value, Legal, Decoded, MainStyle, CalculatedBits, LimitBits, AimedAt, Proportional, LowDifficulty;
    MainStyleMeans(p);
    LowDifficultyIs(p, h);
    LowDiffToRetarget(p);
    LowDiffPastFork(p);
    var before := chain[..h];
    assert chain[h].nBits == NextBits(p, before, chain[h].nTime) && before[h - 1] == chain[h - 1];
    v := 0;
    if LowDifficulty(p, h) {
      LimitAimed(p, h);
    } else if IsRetarget(p, h) {
      FirstOfInterval(p, h);
      TargetsStayLegal(p, chain, h - 1);
      SameEra(p, h, chain[h - 1].nBits);
      assert before[h - p.Interval()] == chain[h - p.Interval()];
      v := RetargetFollowsTime(p, h, chain[h - 1], chain[h - p.Interval()].nTime);
    }
  }

  lemma LowDifficultyIs(p: Params, h: nat)
    requires p.Sound()
    ensures LowDifficulty(p, h) <==> p.bpqHeight <= h < p.LowDiffHeight()
  {
  }

  lemma LimitAimed(p: Params, h: nat)
    ensures AimedAt(p, h, Value(p.PowLimit(h >= p.bpqHeight)), LimitBits(p, h >= p.bpqHeight))
  {
    hide Value, Weight, Encoded, Decoded;
    BelowWeight(p.PowLimit(h >= p.bpqHeight));
    CompactRoundTrip(Value(p.PowLimit(h >= p.bpqHeight)));
  }

  // With the minimum-difficulty rule, between retargets: the limit for a block
  // that comes more than two spacings after its parent, and otherwise the target
  // of the last block that is first in its interval or did not use the rule.
  lemma MinDifficultyTargets(p: Params, chain: seq<Header>, nBlockTime: int) returns (j: nat)
    requires p.Sound() && p.fPowAllowMinDifficultyBlocks && |chain| > 0
    requires !(p.bpqHeight <= |chain| < p.LowDiffHeight()) && p.nPowTargetTimespan / p.nPowTargetSpacing > 0
    requires |chain| % (p.nPowTargetTimespan / p.nPowTargetSpacing) != 0
    ensures var interval := p.nPowTargetTimespan / p.nPowTargetSpacing;
            var h, limit := |chain|, LimitBits(p, |chain| >= p.bpqHeight);
            && AimedAt(p, h, Value(p.PowLimit(h >= p.bpqHeight)), limit)
            && j < h && (j == 0 || j % interval == 0 || chain[j].nBits != limit)
            && (forall k | j < k < h :: k % interval != 0 && chain[k].nBits == limit)
            && NextBits(p, chain, nBlockTime) ==
               if nBlockTime - chain[h - 1].nTime > 2 * p.nPowTargetSpacing then limit else chain[j].nBits
  {
    hide Value, Encoded, Decoded, LimitBits, AimedAt, LastNormal;
    var h := |chain|;
    LimitAimed(p, h);
    j := LastNormalIs(p, chain, h - 1, LimitBits(p, h >= p.bpqHeight));
  }

  lemma {:induction false} LastNormalIs(p: Params, chain: seq<Header>, h: nat, limit: Limb) returns (j: nat)
    requires p.Sound() && h < |chain|
    ensures var interval := p.nPowTargetTimespan / p.nPowTargetSpacing;
            && interval > 0 && j <= h && LastNormal(p, chain, h, limit) == chain[j].nBits
            && (j == 0 || j % interval == 0 || chain[j].nBits != limit)
            && (forall k | j < k <= h :: k % interval != 0 && chain[k].nBits == limit)
    decreases h
  {
    IntervalPositive(p.nPowTargetTimespan, p.nPowTargetSpacing);
    if h > 0 && h % p.Interval() != 0 && chain[h].nBits == limit {
      j := LastNormalIs(p, chain, h - 1, limit);
    } else {
      j := h;
    }
  }

  // The step from a chain to its next block.
  lemma NextLegal(p: Params, chain: seq<Header>, time: int)
    requires MainStyle(p) && |chain| > 0 && Legal(p, |chain| - 1, chain[|chain| - 1].nBits)
    ensures Legal(p, |chain|, NextBits(p, chain, time))
    ensures !LowDifficulty(p, |chain|) ==> Decoded(NextBits(p, chain, time)) <= 4 * Decoded(chain[|chain| - 1].nBits)
  {
    hide Value, Legal, Decoded, MainStyle, CalculatedBits, LimitBits;
    MainStyleMeans(p);
    var h := |chain|;
    LowDiffPastFork(p);
    if LowDifficulty(p, h) {
      LimitBitsLegal(p, h);
    } else {
      SameEra(p, h, chain[h - 1].nBits);
      if IsRetarget(p, h) {
        FirstOfInterval(p, h);
        CalculatedLegal(p, h, chain[h - 1], chain[h - p.Interval()].nTime);
      }
    }
  }

  lemma MainStyleMeans(p: Params)
    requires MainStyle(p)
    ensures p.Sound() && !p.fPowAllowMinDifficultyBlocks && !p.fPowNoRetargeting
  {
  }

  // Outside the low-difficulty stretch, a block is in the era of its parent.
  lemma SameEra(p: Params, h: nat, bits: Limb)
    requires p.Sound() && p.LowDiffHeight() > p.bpqHeight && h > 0 && !LowDifficulty(p, h) && Legal(p, h - 1, bits)
    ensures Legal(p, h, bits)
  {
    hide Value, Decoded, IsNegative, Overflows;
  }

  // On every chain from a legal first block, every target is legal.
  lemma {:induction false} TargetsStayLegal(p: Params, chain: seq<Header>, h: nat)
    requires MainStyle(p) && Produced(p, chain) && h < |chain| && Legal(p, 0, chain[0].nBits)
    ensures Legal(p, h, chain[h].nBits)
  {
    hide MainStyle, Legal, NextBits;
    if h > 0 {
      TargetsStayLegal(p, chain, h - 1);
      MainStyleMeans(p);
      assert chain[..h][h - 1] == chain[h - 1];
      NextLegal(p, chain[..h], chain[h].nTime);
    }
  }

  // Outside the low-difficulty stretch no target is more than four times the
  // one before it, and no product on the way reaches 2^256.
  lemma TargetsGrowSlowly(p: Params, chain: seq<Header>, h: nat, span: nat)
    requires MainStyle(p) && Produced(p, chain) && 0 < h < |chain| && Legal(p, 0, chain[0].nBits)
    requires !LowDifficulty(p, h) && span <= 4 * p.nPowTargetTimespan
    ensures Decoded(chain[h].nBits) <= 4 * Decoded(chain[h - 1].nBits)
    ensures var target := Decoded(chain[h - 1].nBits);
            (if h < p.bpqHeight then target * span else Quot(target, p.nPowTargetTimespan) * span) < Weight(WIDTH)
  {
    hide Legal, NextBits, Decoded, Value, Weight;
    TargetsStayLegal(p, chain, h - 1);
    LowDiffPastFork(p);
    SameEra(p, h, chain[h - 1].nBits);
    assert chain[..h][h - 1] == chain[h - 1];
    NextLegal(p, chain[..h], chain[h].nTime);
    LegalMeans(p, h, chain[h - 1].nBits);
    ScaledBounded(p, Decoded(chain[h - 1].nBits), span, h >= p.bpqHeight);
  }

  lemma LegalMeans(p: Params, h: nat, bits: Limb)
    requires Legal(p, h, bits)
    ensures Decoded(bits) <= Value(p.PowLimit(h >= p.bpqHeight))
  {
  }

  // ------------------------------------------------------------- CheckProofOfWork

  // A hash meets a target that is positive and within the limit.
  method CheckProofOfWork(hash: Uint256, nBits: Limb, postfork: bool, p: Params) returns (ok: bool)
    ensures ok <==> !IsNegative(nBits) && !Overflows(nBits)
                    && 0 < Decoded(nBits) <= Value(if postfork then p.powLimit else p.powLimitLegacy)
                    && Value(hash) <= Decoded(nBits)
  {
    hide Value, Decoded;
    var bnTarget := new Limb[WIDTH](_ => 0);
    var fNegative, fOverflow := SetCompact(bnTarget, nBits);
    var zero := new Limb[WIDTH](_ => 0);
    SetZero(zero);
    var isZero := CompareTo(bnTarget, zero);
    var limit := FromLimbs(p.PowLimit(postfork));
    var overLimit := CompareTo(bnTarget, limit);
    if fNegative || isZero == 0 || fOverflow || overLimit > 0 {
      return false;
    }
    var h := FromLimbs(hash);
    var above := CompareTo(h, bnTarget);
    if above > 0 {
      return false;
    }
    return true;
  }
}
