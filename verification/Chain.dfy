/**
 The block tree: parent links, skip links that let an ancestor be found in few
 steps, and the active chain as a vector of blocks indexed by height.
 */
module Chain {
  import opened Numbers

  // ------------------------------------------------------------ skip heights

  // Bitwise and of two natural numbers.
  function And(a: nat, b: nat): nat {
    if a == 0 || b == 0 then 0 else 2 * And(a / 2, b / 2) + (a % 2) * (b % 2)
  }

  function InvertLowestOne(n: nat): nat {
    if n == 0 then 0 else And(n, n - 1)
  }

  // The lowest one of a binary representation, as a power of two.
  ghost function LowestOne(n: nat): nat
    requires n > 0
  {
    if n % 2 == 1 then 1 else 2 * LowestOne(n / 2)
  }

  lemma {:induction false} AndSelf(n: nat)
    ensures And(n, n) == n
  {
    if n > 0 {
      AndSelf(n / 2);
    }
  }

  // The trick with n - 1 takes away exactly the lowest one.
  lemma {:induction false} InvertsLowestOne(n: nat)
    requires n > 0
    ensures InvertLowestOne(n) + LowestOne(n) == n && LowestOne(n) > 0
  {
    if n % 2 == 1 {
      assert (n - 1) / 2 == n / 2 && (n - 1) % 2 == 0;
      AndSelf(n / 2);
    } else {
      assert (n - 1) / 2 == n / 2 - 1 && (n - 1) % 2 == 1;
      InvertsLowestOne(n / 2);
    }
  }

  function GetSkipHeight(height: nat): nat {
    if height < 2 then 0
    else if height % 2 == 1 then InvertLowestOne(InvertLowestOne(height - 1)) + 1
    else InvertLowestOne(height)
  }

  lemma SkipsBack(height: nat)
    requires height > 0
    ensures GetSkipHeight(height) < height
  {
    if height >= 2 {
      InvertsLowestOne(height);
      InvertsLowestOne(height - 1);
      var m := InvertLowestOne(height - 1);
      if m > 0 {
        InvertsLowestOne(m);
      }
    }
  }

  // --------------------------------------------------- how far a walk goes

  // The ones of a binary representation.
  ghost function Ones(n: nat): nat {
    if n == 0 then 0 else n % 2 + Ones(n / 2)
  }

  lemma {:induction false} OnesAtMost(n: nat, top: nat)
    requires n <= top
    ensures Ones(n) <= BitLength(top)
  {
    if n > 0 {
      OnesAtMost(n / 2, top / 2);
    }
  }

  lemma {:induction false} OnesInverted(n: nat)
    requires n > 0
    ensures Ones(n) > 0 && Ones(InvertLowestOne(n)) == Ones(n) - 1 && InvertLowestOne(n) % 2 == 0
  {
    InvertsLowestOne(n);
    if n % 2 == 1 {
      assert InvertLowestOne(n) == n - 1 && (n - 1) / 2 == n / 2;
    } else {
      HalfInverted(n);
      OnesInverted(n / 2);
    }
  }

  lemma HalfInverted(n: nat)
    requires n > 0 && n % 2 == 0
    ensures InvertLowestOne(n) == 2 * InvertLowestOne(n / 2)
  {
    InvertsLowestOne(n);
    InvertsLowestOne(n / 2);
  }

  // The binary digits in which two numbers differ, counted from the lowest.
  ghost function Level(a: nat, b: nat): nat
    decreases a + b
  {
    if a == b then 0 else 1 + Level(a / 2, b / 2)
  }

  lemma {:induction false} LevelMonotone(b: nat, c: nat, a: nat)
    requires b <= c <= a
    ensures Level(c, b) <= Level(a, b)
    decreases a
  {
    if c != b {
      LevelMonotone(b / 2, c / 2, a / 2);
    }
  }

  lemma {:induction false} LevelAtMost(a: nat, b: nat)
    requires b <= a
    ensures Level(a, b) <= BitLength(a)
    decreases a
  {
    if a != b {
      LevelAtMost(a / 2, b / 2);
    }
  }

  // A number without its k lowest digits.
  ghost function Shared(n: nat, k: nat): nat {
    if k == 0 then n else Shared(n / 2, k - 1)
  }

  lemma {:induction false} SharedIs(n: nat, k: nat)
    ensures Shared(n, k) == n / Pow2(k)
  {
    if k > 0 {
      SharedIs(n / 2, k - 1);
      QuotientOfQuotient(n, 2, Pow2(k - 1));
    }
  }

  // It is the lowest level at which the two share all higher digits.
  lemma {:induction false} LevelIs(a: nat, b: nat, k: nat)
    ensures Shared(a, k) == Shared(b, k) <==> Level(a, b) <= k
    decreases a + b
  {
    if k > 0 && a != b {
      LevelIs(a / 2, b / 2, k - 1);
    }
  }

  // Height w is a multiple of the block size that it and h share.
  ghost predicate AtTop(w: nat, h: nat)
    requires h < w
  {
    w % Pow2(Level(w - 1, h)) == 0
  }

  lemma {:induction false} LowestOnePower(n: nat) returns (j: nat)
    requires n > 0
    ensures LowestOne(n) == Pow2(j) && n % Pow2(j) == 0
  {
    if n % 2 == 1 {
      j := 0;
    } else {
      var i := LowestOnePower(n / 2);
      j := i + 1;
      EvenMultiple(n, Pow2(i));
    }
  }

  lemma EvenMultiple(n: nat, m: nat)
    requires m > 0 && n % 2 == 0 && (n / 2) % m == 0
    ensures n % (2 * m) == 0
  {
    var q := n / 2 / m;
    assert n / 2 == q * m + 0;
    assert n == q * (2 * m) + 0;
    DivisionUnique(n, 2 * m, q, 0);
  }

  // Where the skip from an even height goes too far, the height is at the top.
  lemma OvershootIsTop(w: nat, h: nat)
    requires w % 2 == 0 && InvertLowestOne(w) < h < w
    ensures AtTop(w, h)
  {
    InvertsLowestOne(w);
    var j := LowestOnePower(w);
    SameBlock(w, Pow2(j), w - 1);
    SameBlock(w, Pow2(j), h);
    SharedIs(w - 1, j);
    SharedIs(h, j);
    hide Shared, Level;
    LevelIs(w - 1, h, j);
    PowerDivides(w, Level(w - 1, h), j);
  }

  lemma SameBlock(w: nat, m: nat, x: nat)
    requires m > 0 && w % m == 0 && w - m <= x < w
    ensures x / m == w / m - 1
  {
    var q := w / m;
    assert w == q * m;
    assert x == (q - 1) * m + (x - (w - m));
    DivisionUnique(x, m, q - 1, x - (w - m));
  }

  lemma PowerDivides(w: nat, k: nat, j: nat)
    requires k <= j && w % Pow2(j) == 0
    ensures w % Pow2(k) == 0
  {
    Pow2Add(k, j - k);
    MultipleOfFactor(w, Pow2(k), Pow2(j - k));
  }

  lemma MultipleOfFactor(w: nat, a: nat, b: nat)
    requires a > 0 && b > 0 && a * b > 0 && w % (a * b) == 0
    ensures w % a == 0
  {
    var q := w / (a * b);
    assert w == q * (a * b);
    assert q * (a * b) == (q * b) * a;
    DivisionUnique(w, a, q * b, 0);
  }

  // Below a height of the same block nothing is at the top.
  lemma BelowTop(w: nat, h: nat, x: nat)
    requires h < x < w && Level(x - 1, h) == Level(w - 1, h)
    ensures !AtTop(x, h)
  {
    var k := Level(w - 1, h);
    LevelIs(w - 1, h, k);
    SharedIs(w - 1, k);
    SharedIs(h, k);
    hide Level, Shared;
    NoMultipleBetween(h, x, w - 1, Pow2(k));
  }

  lemma NoMultipleBetween(h: nat, x: nat, a: nat, m: nat)
    requires m > 0 && h < x <= a && a / m == h / m
    ensures x % m != 0
  {
    var q := h / m;
    assert h == q * m + h % m && a == q * m + a % m;
    if x % m == 0 {
      DivisionUnique(x, m, q, x - q * m);
    }
  }

  // What remains to be done from height w, among heights of l bits.
  ghost function Rank(w: nat, h: nat, l: nat): int
    requires h < w
  {
    if AtTop(w, h) then 3 * l + 3
    else if w % 2 == 0 then 3 * Ones(w)
    else if GetSkipHeight(w) >= h then 3 * Ones(w - 1) - 1
    else 3 * Ones(w - 1) + 1
  }

  ghost function Cost(w: nat, h: nat, l: nat): int
    requires h <= w
  {
    if w == h then 0 else Weighted(Level(w - 1, h), l) + Rank(w, h, l)
  }

  // More than any rank, for each level.
  ghost function Weighted(k: nat, l: nat): nat {
    k * (3 * l + 4)
  }

  lemma LowerLevel(j: nat, k: nat, l: nat)
    requires j <= k
    ensures Weighted(j, l) <= Weighted(k, l) && (j < k ==> Weighted(j, l) + 3 * l + 4 <= Weighted(k, l))
  {
    ProductMonotone(3 * l + 4, j, k);
    if j < k {
      ProductMonotone(3 * l + 4, j + 1, k);
    }
  }

  // Where the walk goes next if every skip link is there.
  predicate Skips(w: nat, h: nat) {
    var skip, skipPrev := GetSkipHeight(w), if w == 0 then 0 else GetSkipHeight(w - 1);
    skip == h || (skip > h && !(skipPrev < skip - 2 && skipPrev >= h))
  }

  function NextHeight(w: nat, h: nat): nat
    requires h < w
  {
    if Skips(w, h) then GetSkipHeight(w) else w - 1
  }

  lemma RankBounds(w: nat, h: nat, top: nat)
    requires h < w <= top
    ensures 0 <= Rank(w, h, BitLength(top)) <= 3 * BitLength(top) + 3
    ensures !AtTop(w, h) ==> Rank(w, h, BitLength(top)) <= 3 * BitLength(top) + 1
  {
    hide Level;
    OnesAtMost(w, top);
    OnesAtMost(w - 1, top);
    if !AtTop(w, h) && w % 2 == 1 {
      OddNotLowest(w, h);
      OnesInverted(w - 1);
    }
  }

  // Height one is at the top.
  lemma OddNotLowest(w: nat, h: nat)
    requires h < w && w % 2 == 1 && !AtTop(w, h)
    ensures w >= 3
  {
  }

  // In one step the level falls, or the rank does.
  lemma StepDown(w: nat, h: nat, top: nat)
    requires h < w <= top
    ensures h <= NextHeight(w, h) < w
    ensures Cost(NextHeight(w, h), h, BitLength(top)) < Cost(w, h, BitLength(top))
  {
    SkipsBack(w);
    var x, l := NextHeight(w, h), BitLength(top);
    assert h <= x < w;
    hide Level, AtTop, Rank, GetSkipHeight, Weighted, NextHeight;
    RankBounds(w, h, top);
    if x > h {
      RankBounds(x, h, top);
      LevelMonotone(h, x - 1, w - 1);
      if Level(x - 1, h) == Level(w - 1, h) {
        BelowTop(w, h, x);
        RankFalls(w, h, top);
      } else {
        LowerLevel(Level(x - 1, h), Level(w - 1, h), l);
      }
    } else {
      RankPositive(w, h, top);
    }
  }

  lemma RankPositive(w: nat, h: nat, top: nat)
    requires h < w <= top
    ensures Rank(w, h, BitLength(top)) > 0
  {
    hide Level, AtTop;
    if !AtTop(w, h) {
      if w % 2 == 0 {
        OnesInverted(w);
      } else {
        OddNotLowest(w, h);
        OnesInverted(w - 1);
      }
    }
  }

  lemma RankFalls(w: nat, h: nat, top: nat)
    requires h < w <= top && h < NextHeight(w, h) < w
    requires Level(NextHeight(w, h) - 1, h) == Level(w - 1, h) && !AtTop(NextHeight(w, h), h)
    ensures Rank(NextHeight(w, h), h, BitLength(top)) < Rank(w, h, BitLength(top))
  {
    var x := NextHeight(w, h);
    if AtTop(w, h) {
      RankBounds(x, h, top);
    } else if w % 2 == 0 {
      EvenFalls(w, h, BitLength(top));
    } else {
      OddFalls(w, h, BitLength(top));
    }
  }

  // From an even height the skip clears one digit.  The link of the height
  // below is preferred only where that adds none.
  lemma EvenFalls(w: nat, h: nat, l: nat)
    requires w % 2 == 0 && h < w && h < NextHeight(w, h) && !AtTop(w, h) && !AtTop(NextHeight(w, h), h)
    ensures Rank(NextHeight(w, h), h, l) < Rank(w, h, l)
  {
    hide AtTop;
    assert GetSkipHeight(w) == InvertLowestOne(w);
    if GetSkipHeight(w) < h {
      OvershootIsTop(w, h);
    }
    OnesInverted(w);
    if !Skips(w, h) {
      PreferredLink(w);
    }
  }

  lemma PreferredLink(w: nat)
    requires w > 0 && w % 2 == 0 && GetSkipHeight(w - 1) < GetSkipHeight(w) - 2
    ensures Ones(w - 2) <= Ones(w)
  {
    if w % 8 == 0 {
      MultipleOfEight(w);
    } else {
      OnesBelow(w);
    }
  }

  lemma OnesBelow(w: nat)
    requires w > 0 && w % 2 == 0 && w % 8 != 0
    ensures Ones(w - 2) <= Ones(w)
  {
    hide Ones;
    var u := w / 2;
    OnesOfDigit(u, 0);
    OnesOfDigit(u - 1, 0);
    if u % 2 == 1 {
      OnesOfDigit(u / 2, 1);
      OnesOfDigit(u / 2, 0);
    } else {
      var v := u / 2;
      OnesOfDigit(v, 0);
      OnesOfDigit(v - 1, 1);
      OnesOfDigit(v / 2, 1);
      OnesOfDigit(v / 2, 0);
      assert v == 2 * (v / 2) + 1;
    }
  }

  lemma OnesOfDigit(n: nat, digit: nat)
    requires digit < 2
    ensures Ones(2 * n + digit) == Ones(n) + digit
  {
    assert (2 * n + digit) / 2 == n && (2 * n + digit) % 2 == digit;
  }

  lemma MultipleOfEight(w: nat)
    requires w > 0 && w % 8 == 0
    ensures GetSkipHeight(w - 1) == w - 7 && GetSkipHeight(w) < w - 7
  {
    var t := w / 8;
    InvertEight(t);
    InvertSix(t - 1);
    InvertsLowestOne(t);
    hide InvertLowestOne;
    assert w == 8 * t && w - 2 == 8 * (t - 1) + 6;
  }

  lemma InvertEight(t: nat)
    requires t > 0
    ensures InvertLowestOne(8 * t) == 8 * InvertLowestOne(t)
  {
    hide InvertLowestOne;
    InvertDigit(t, 0);
    InvertDigit(2 * t, 0);
    InvertDigit(4 * t, 0);
  }

  lemma InvertSix(n: nat)
    ensures InvertLowestOne(8 * n + 6) == 8 * n + 4 && InvertLowestOne(8 * n + 4) == 8 * n
  {
    hide InvertLowestOne;
    InvertDigit(4 * n + 3, 0);
    InvertDigit(2 * n + 1, 1);
    InvertDigit(4 * n + 2, 0);
    InvertDigit(2 * n + 1, 0);
    InvertDigit(n, 1);
  }

  lemma InvertDigit(n: nat, digit: nat)
    requires digit < 2 && 2 * n + digit > 0
    ensures InvertLowestOne(2 * n + digit) == if digit == 1 then 2 * n else 2 * InvertLowestOne(n)
  {
    if digit == 1 {
      InvertsLowestOne(2 * n + 1);
    } else {
      HalfInverted(2 * n);
    }
  }

  // From an odd height the skip is taken where it does not go too far, and
  // clears two digits.
  lemma OddFalls(w: nat, h: nat, l: nat)
    requires w % 2 == 1 && h < w && h < NextHeight(w, h) && !AtTop(w, h) && !AtTop(NextHeight(w, h), h)
    requires Level(NextHeight(w, h) - 1, h) == Level(w - 1, h)
    ensures Rank(NextHeight(w, h), h, l) < Rank(w, h, l)
  {
    hide AtTop, GetSkipHeight, Skips, Ones, Level;
    OddNotLowest(w, h);
    OddSkip(w, h);
    if GetSkipHeight(w) == 1 {
      OneIsTop(w, h);
    }
  }

  lemma OddSkip(w: nat, h: nat)
    requires w % 2 == 1 && 3 <= w && h < w
    ensures GetSkipHeight(w) % 2 == 1 && (Skips(w, h) <==> GetSkipHeight(w) >= h)
    ensures GetSkipHeight(w) == 1 || Ones(GetSkipHeight(w) - 1) + 2 == Ones(w - 1)
  {
    OddSkipIs(w);
    TwiceInverted(w - 1);
    SkipRule(w, h, InvertLowestOne(w - 1), InvertLowestOne(InvertLowestOne(w - 1)));
  }

  lemma SkipRule(w: nat, h: nat, m: nat, n: nat)
    requires h < w && n <= m && GetSkipHeight(w) == n + 1 && GetSkipHeight(w - 1) == m
    ensures Skips(w, h) <==> GetSkipHeight(w) >= h
  {
    hide GetSkipHeight;
  }

  lemma TwiceInverted(n: nat)
    requires n > 0
    ensures var m := InvertLowestOne(InvertLowestOne(n));
            m <= InvertLowestOne(n) && (m + 1) % 2 == 1 && (m == 0 || Ones(m) + 2 == Ones(n))
  {
    hide InvertLowestOne, Ones;
    OnesInverted(n);
    var m := InvertLowestOne(n);
    NothingInverted();
    if m > 0 {
      OnesInverted(m);
      InvertsLowestOne(m);
    }
  }

  lemma OddSkipIs(w: nat)
    requires w % 2 == 1 && 3 <= w
    ensures GetSkipHeight(w) == InvertLowestOne(InvertLowestOne(w - 1)) + 1 && GetSkipHeight(w - 1) == InvertLowestOne(w - 1)
  {
    hide InvertLowestOne;
  }

  lemma NothingInverted()
    ensures InvertLowestOne(0) == 0
  {
  }

  // The skip to height one ends the walk's level.
  lemma OneIsTop(w: nat, h: nat)
    requires h < w && 3 <= w
    ensures h == 0 ==> Level(0, h) < Level(w - 1, h)
  {
  }

  ghost function StepBound(height: nat): nat {
    Weighted(BitLength(height), BitLength(height)) + 3 * BitLength(height) + 3
  }

  lemma CostBounded(w: nat, h: nat)
    requires h <= w
    ensures Cost(w, h, BitLength(w)) <= StepBound(w)
  {
    hide Level, Rank, Weighted, BitLength;
    if h < w {
      RankBounds(w, h, w);
      LevelAtMost(w - 1, h);
      BitLengthMonotone(w - 1, w);
      LowerLevel(Level(w - 1, h), BitLength(w), BitLength(w));
    }
  }

  // The steps taken and those that the walk from w still costs are within bounds.
  ghost predicate Affordable(steps: nat, w: nat, h: nat, top: nat) {
    h <= w <= top && steps + Cost(w, h, BitLength(top)) <= StepBound(top)
  }

  lemma AffordsStart(h: nat, top: nat)
    requires h <= top
    ensures Affordable(0, top, h, top)
  {
    hide Cost, StepBound, BitLength;
    CostBounded(top, h);
  }

  lemma AffordsStep(steps: nat, w: nat, h: nat, top: nat)
    requires h < w && Affordable(steps, w, h, top)
    ensures Affordable(steps + 1, NextHeight(w, h), h, top)
  {
    hide Cost, StepBound, BitLength;
    StepDown(w, h, top);
    NextHeightIs(w, h);
    SkipsBack(w);
  }

  lemma AffordsEnd(steps: nat, h: nat, top: nat)
    requires Affordable(steps, h, h, top)
    ensures steps <= StepBound(top)
  {
    hide Cost, StepBound, BitLength;
    CostNatural(h, h, BitLength(top));
  }

  lemma {:induction false} BitLengthMonotone(a: nat, b: nat)
    requires a <= b
    ensures BitLength(a) <= BitLength(b)
  {
    if a > 0 {
      BitLengthMonotone(a / 2, b / 2);
    }
  }

  // --------------------------------------------------------------- the tree

  class BlockIndex {
    const pprev: BlockIndex?
    const nHeight: nat
    var pskip: BlockIndex?

    constructor (pprev: BlockIndex?)
      ensures this.pprev == pprev && nHeight == (if pprev == null then 0 else pprev.nHeight + 1) && pskip == null
    {
      this.pprev := pprev;
      nHeight := if pprev == null then 0 else pprev.nHeight + 1;
      pskip := null;
    }

    // The ancestor at a height, found by following skip links where they pay.
    // If they are all there, the number of steps is at most quadratic in the
    // number of binary digits of the height.
    method GetAncestor(height: int, ghost tree: set<BlockIndex>) returns (r: BlockIndex?, ghost steps: nat)
      requires Tree(tree) && this in tree
      ensures AllSkips(tree) ==> steps <= StepBound(nHeight)
      ensures r == null <==> !(0 <= height <= nHeight)
      ensures 0 <= height <= nHeight ==> r == Ancestor(this, height) && r in tree
    {
      hide Affordable, NextHeight, StepBound, GetSkipHeight, Tree, AllSkips, Ancestor, Linked;
      steps := 0;
      if height > nHeight || height < 0 {
        return null, 0;
      }
      var pindexWalk: BlockIndex := this;
      var heightWalk := nHeight;
      TreeLinked(tree, this);
      AffordsStart(height, nHeight);
      while heightWalk > height
        invariant pindexWalk in tree && height <= heightWalk == pindexWalk.nHeight
        invariant Linked(this) && Linked(pindexWalk) && Ancestor(pindexWalk, height) == Ancestor(this, height)
        invariant heightWalk <= nHeight
        invariant AllSkips(tree) ==> Affordable(steps, heightWalk, height, nHeight)
        decreases heightWalk
      {
        TreeLinked(tree, pindexWalk);
        if AllSkips(tree) {
          AffordsStep(steps, heightWalk, height, nHeight);
        }
        NextHeightIs(heightWalk, height);
        var heightSkip := GetSkipHeight(heightWalk);
        var heightSkipPrev := GetSkipHeight(heightWalk - 1);
        SkipsBack(heightWalk);
        if pindexWalk.pskip != null &&
           (heightSkip == height || (heightSkip > height && !(heightSkipPrev < heightSkip - 2 && heightSkipPrev >= height))) {
          SkipWalks(tree, pindexWalk, height);
          pindexWalk := pindexWalk.pskip;
          heightWalk := heightSkip;
        } else {
          ParentWalks(tree, pindexWalk, height);
          pindexWalk := pindexWalk.pprev;
          heightWalk := heightWalk - 1;
        }
        steps := steps + 1;
      }
      TreeLinked(tree, pindexWalk);
      if AllSkips(tree) {
        AffordsEnd(steps, height, nHeight);
      }
      return pindexWalk, steps;
    }

    method BuildSkip(ghost tree: set<BlockIndex>)
      requires Tree(tree) && Linked(this) && (pprev != null ==> pprev in tree) && pskip == null
      modifies this
      ensures Tree(tree + {this})
      ensures pprev != null ==> SkipRight(this)
    {
      if pprev != null {
        SkipsBack(nHeight);
        ghost var steps;
        pskip, steps := pprev.GetAncestor(GetSkipHeight(nHeight), tree);
        assert pskip == Ancestor(this, GetSkipHeight(nHeight));
      }
    }
  }

  // Heights count the parents down to a root.
  ghost predicate Linked(b: BlockIndex)
    decreases b.nHeight
  {
    if b.pprev == null then b.nHeight == 0 else b.nHeight == b.pprev.nHeight + 1 && Linked(b.pprev)
  }

  // Follows the parent link nHeight - h times.
  ghost function Ancestor(b: BlockIndex, h: nat): (r: BlockIndex)
    requires Linked(b) && h <= b.nHeight
    ensures Linked(r) && r.nHeight == h
    decreases b.nHeight
  {
    if h == b.nHeight then b else Ancestor(b.pprev, h)
  }

  // Blocks closed under parents, whose skip links are absent or right.
  ghost predicate Tree(tree: set<BlockIndex>)
    reads tree
  {
    forall b | b in tree ::
      && Linked(b) && (b.pprev != null ==> b.pprev in tree)
      && (b.nHeight > 0 && b.pskip != null ==> SkipRight(b))
      && (b.nHeight == 0 ==> b.pskip == null)
  }

  // Every block with a parent has its skip link, as BuildSkip gives it.
  ghost predicate AllSkips(tree: set<BlockIndex>)
    reads tree
  {
    forall b | b in tree && b.nHeight > 0 :: b.pskip != null
  }

  lemma NextHeightIs(w: nat, h: nat)
    requires h < w
    ensures NextHeight(w, h) == if Skips(w, h) then GetSkipHeight(w) else w - 1
  {
  }

  lemma CostNatural(w: nat, h: nat, l: nat)
    requires w == h
    ensures Cost(w, h, l) == 0
  {
  }

  ghost predicate SkipRight(b: BlockIndex)
    requires Linked(b) && b.nHeight > 0
    reads b
  {
    SkipsBack(b.nHeight);
    b.pskip == Ancestor(b, GetSkipHeight(b.nHeight))
  }

  lemma {:induction false} AncestorOfAncestor(b: BlockIndex, h: nat, k: nat)
    requires Linked(b) && k <= h <= b.nHeight
    ensures Ancestor(Ancestor(b, h), k) == Ancestor(b, k)
    decreases b.nHeight
  {
    if h < b.nHeight {
      AncestorOfAncestor(b.pprev, h, k);
    }
  }

  lemma {:induction false} AncestorKnown(tree: set<BlockIndex>, b: BlockIndex, h: nat)
    requires Tree(tree) && b in tree && h <= b.nHeight
    ensures Linked(b) && Ancestor(b, h) in tree
    decreases b.nHeight
  {
    if h < b.nHeight {
      AncestorKnown(tree, b.pprev, h);
    }
  }

  lemma TreeLinked(tree: set<BlockIndex>, b: BlockIndex)
    requires Tree(tree) && b in tree
    ensures Linked(b) && Ancestor(b, b.nHeight) == b
    ensures b.nHeight > 0 && AllSkips(tree) ==> b.pskip != null
  {
  }

  // A walk to height h may follow the skip link, if it does not go too far, ...
  lemma SkipWalks(tree: set<BlockIndex>, b: BlockIndex, h: nat)
    requires Tree(tree) && b in tree && b.pskip != null && h <= GetSkipHeight(b.nHeight) <= b.nHeight
    ensures b.pskip in tree && b.pskip.nHeight == GetSkipHeight(b.nHeight)
    ensures Linked(b) && Linked(b.pskip) && Ancestor(b.pskip, h) == Ancestor(b, h)
  {
    hide GetSkipHeight;
    AncestorOfAncestor(b, GetSkipHeight(b.nHeight), h);
    AncestorKnown(tree, b, GetSkipHeight(b.nHeight));
  }

  // ... or the link to the parent.
  lemma ParentWalks(tree: set<BlockIndex>, b: BlockIndex, h: nat)
    requires Tree(tree) && b in tree && h < b.nHeight
    ensures b.pprev != null && b.pprev in tree && b.pprev.nHeight == b.nHeight - 1
    ensures Linked(b) && Linked(b.pprev) && Ancestor(b.pprev, h) == Ancestor(b, h)
  {
    assert Linked(b);
  }

  // A new block on top of the tree, as AddToBlockIndex makes it.
  method AddBlock(ghost tree: set<BlockIndex>, pprev: BlockIndex?) returns (b: BlockIndex)
    requires Tree(tree) && (pprev != null ==> pprev in tree)
    ensures fresh(b) && b.pprev == pprev && Tree(tree + {b})
    ensures pprev != null ==> Linked(b) && SkipRight(b)
  {
    b := new BlockIndex(pprev);
    b.BuildSkip(tree);
  }

  // -------------------------------------------------------------- the active chain

  ghost predicate IsAncestor(a: BlockIndex, b: BlockIndex)
    requires Linked(b)
  {
    a.nHeight <= b.nHeight && Ancestor(b, a.nHeight) == a
  }

  // r is the highest block that is an ancestor of both; null if there is none.
  ghost predicate HighestCommon(r: BlockIndex?, a: BlockIndex, b: BlockIndex, tree: set<BlockIndex>)
    requires Linked(a) && Linked(b)
  {
    && (r != null ==> IsAncestor(r, a) && IsAncestor(r, b))
    && (forall c | c in tree && IsAncestor(c, a) && IsAncestor(c, b) :: r != null && c.nHeight <= r.nHeight)
  }

  class CChain {
    var vChain: seq<BlockIndex?>

    // The vector is the path from the root to its last block.
    ghost predicate Valid(tree: set<BlockIndex>)
      reads this, tree
    {
      && Tree(tree)
      && (vChain != [] ==> vChain[|vChain| - 1] != null && vChain[|vChain| - 1] in tree && IsPath(vChain, vChain[|vChain| - 1]))
    }

    constructor ()
      ensures vChain == []
    {
      vChain := [];
    }

    function Tip(): BlockIndex?
      reads this
    {
      if |vChain| > 0 then vChain[|vChain| - 1] else null
    }

    function At(nHeight: int): BlockIndex?
      reads this
    {
      if nHeight < 0 || nHeight >= |vChain| then null else vChain[nHeight]
    }

    // A block is in the chain exactly if it is an ancestor of the tip.
    predicate Contains(pindex: BlockIndex)
      reads this
    {
      At(pindex.nHeight) == pindex
    }

    function Height(): int
      reads this
    {
      |vChain| - 1
    }

    // Writes blocks from the new tip down until one is in place already.
    method SetTip(tip: BlockIndex?, ghost tree: set<BlockIndex>)
      requires Valid(tree) && (tip != null ==> tip in tree)
      modifies this
      ensures Valid(tree) && Tip() == tip
      ensures tip != null ==> IsPath(vChain, tip)
    {
      hide Tree, WrittenAbove, IsPath, Resized;
      if tip == null {
        vChain := [];
        return;
      }
      ParentKnown(tree, tip);
      ghost var was := vChain;
      ResizedLength(vChain, tip.nHeight + 1);
      NothingWritten(Resized(vChain, tip.nHeight + 1), tip);
      var pindex: BlockIndex? := tip;
      vChain := Resized(vChain, tip.nHeight + 1);
      ghost var resized := vChain;
      while pindex != null && vChain[pindex.nHeight] != pindex
        invariant |vChain| == tip.nHeight + 1
        invariant pindex != null ==> Linked(pindex) && pindex in tree && IsAncestor(pindex, tip)
        invariant pindex != null ==> vChain[..pindex.nHeight + 1] == resized[..pindex.nHeight + 1]
        invariant WrittenAbove(vChain, tip, if pindex == null then -1 else pindex.nHeight)
        decreases if pindex == null then 0 else pindex.nHeight + 1
      {
        WriteStep(vChain, tip, pindex);
        vChain := vChain[pindex.nHeight := pindex];
        if pindex.pprev != null {
          AncestorOfAncestor(tip, pindex.nHeight, pindex.nHeight - 1);
          ParentKnown(tree, pindex);
          assert vChain[..pindex.nHeight] == resized[..pindex.nHeight + 1][..pindex.nHeight];
        }
        pindex := pindex.pprev;
      }
      if pindex != null {
        assert resized[pindex.nHeight] == vChain[..pindex.nHeight + 1][pindex.nHeight] == pindex;
        RestInPlace(was, tip, pindex, vChain);
      }
      PathWritten(vChain, tip, if pindex == null then -1 else pindex.nHeight);
    }

    // Blocks that let another node find the fork: dense near the given block,
    // then ever sparser, down to the root.
    method GetLocator(pindex: BlockIndex?, ghost tree: set<BlockIndex>) returns (vHave: seq<BlockIndex>)
      requires Valid(tree) && (pindex != null ==> pindex in tree)
      ensures var start := if pindex == null then Tip() else pindex;
              if start == null then vHave == [] else Located(vHave, start, LocatorHeights(start.nHeight, 1, 0))
    {
      hide Tree, IsPath, Located, Locating, LocatorHeights;
      vHave := [];
      var p := pindex;
      if p == null {
        p := Tip();
      }
      if p == null {
        return;
      }
      ghost var start := p;
      ParentKnown(tree, start);
      var nStep := 1;
      LocatingStarts(start);
      while true
        invariant nStep > 0 && p != null && p in tree && Linked(p) && Linked(start) && Locating(vHave, start, p, nStep)
        decreases p.nHeight
      {
        LocatingStep(vHave, start, p, nStep);
        vHave := vHave + [p];
        if p.nHeight == 0 {
          return;
        }
        p := StepBack(p, if p.nHeight > nStep then p.nHeight - nStep else 0, tree);
        if |vHave| > 10 {
          nStep := nStep * 2;
        }
      }
    }

    // An ancestor, by the vector if the block is in the chain.
    method StepBack(p: BlockIndex, nHeight: nat, ghost tree: set<BlockIndex>) returns (q: BlockIndex)
      requires Valid(tree) && p in tree && Linked(p) && nHeight <= p.nHeight
      ensures q == Ancestor(p, nHeight) && q in tree
    {
      hide Tree, IsPath;
      AncestorKnown(tree, p, nHeight);
      if Contains(p) {
        IndexIsAncestor(this, tree, p, nHeight);
        q := At(nHeight);
      } else {
        ghost var steps;
        q, steps := p.GetAncestor(nHeight, tree);
      }
    }

    // The last block of the chain on the way to a block.
    method FindFork(pindex: BlockIndex?, ghost tree: set<BlockIndex>) returns (r: BlockIndex?)
      requires Valid(tree) && (pindex != null ==> pindex in tree)
      ensures pindex == null || Tip() == null ==> r == null
      ensures pindex != null && Tip() != null ==>
                Linked(pindex) && Linked(Tip()) && HighestCommon(r, pindex, Tip(), tree)
    {
      if pindex == null {
        return null;
      }
      r := pindex;
      if pindex.nHeight > Height() {
        ghost var steps;
        r, steps := pindex.GetAncestor(Height(), tree);
      }
      if |vChain| > 0 {
        ForkBelow(pindex, Tip(), r, tree);
      }
      hide Tree, IsPath;
      while r != null && !Contains(r)
        invariant r != null ==> r in tree && |vChain| > 0
        invariant |vChain| > 0 ==> Linked(Tip()) && Above(pindex, Tip(), r, tree)
        decreases if r == null then 0 else r.nHeight + 1
      {
        ContainsAncestors(this, tree, Tip(), r);
        ForkStep(pindex, Tip(), r, tree);
        r := r.pprev;
      }
      if r != null {
        ContainsAncestors(this, tree, Tip(), r);
      }
    }
  }

  // Heights that a locator visits: eleven single steps, then doubling ones, then 0.
  ghost function LocatorHeights(h: nat, step: nat, count: nat): (hs: seq<nat>)
    requires step > 0
    ensures |hs| > 0 && hs[0] == h && hs[|hs| - 1] == 0 && forall i | 0 <= i < |hs| - 1 :: hs[i] > hs[i + 1]
    decreases h
  {
    if h == 0 then [0]
    else [h] + LocatorHeights(if h > step then h - step else 0, if count + 1 > 10 then 2 * step else step, count + 1)
  }

  // So far back from a height, but not below the root.
  function Back(h: nat, d: nat): nat {
    if h > d then h - d else 0
  }

  lemma BackTwice(h: nat, d: nat, e: nat)
    ensures Back(Back(h, d), e) == Back(h, d + e)
  {
  }

  lemma LocatorNext(h: nat, step: nat, count: nat, i: nat)
    requires step > 0 && 0 < i < |LocatorHeights(h, step, count)|
    ensures var rest := LocatorHeights(Back(h, step), if count >= 10 then 2 * step else step, count + 1);
            i - 1 < |rest| && LocatorHeights(h, step, count)[i] == rest[i - 1]
  {
  }

  // Once steps are doubled, the distance doubles with each.
  lemma {:induction false} LocatorDoubles(h: nat, step: nat, count: nat, i: nat)
    requires step > 0 && count >= 10 && i < |LocatorHeights(h, step, count)|
    ensures LocatorHeights(h, step, count)[i] == Back(h, Distance(step, i))
    decreases i
  {
    hide LocatorHeights, Back, Distance;
    DistanceNext(step, i);
    if i > 0 {
      LocatorNext(h, step, count, i);
      LocatorDoubles(Back(h, step), 2 * step, count + 1, i - 1);
      BackTwice(h, step, Distance(2 * step, i - 1));
    } else {
      BackNone(h);
    }
  }

  // Of i steps, each twice the one before.
  function Distance(step: nat, i: nat): nat {
    step * (Pow2(i) - 1)
  }

  lemma DistanceNext(step: nat, i: nat)
    ensures if i == 0 then Distance(step, i) == 0 else Distance(step, i) == step + Distance(2 * step, i - 1)
  {
    if i > 0 {
      var p := Pow2(i - 1);
      assert step * (2 * p - 1) == step + (2 * step) * (p - 1);
    }
  }

  lemma BackNone(h: nat)
    ensures Back(h, 0) == h
  {
  }

  lemma {:induction false} LocatorSteps(h: nat, count: nat, i: nat)
    requires count <= 10 && i < |LocatorHeights(h, 1, count)|
    ensures LocatorHeights(h, 1, count)[i] == if i <= 10 - count then Back(h, i) else Back(h, 10 - count + Distance(1, i - (10 - count)))
    decreases i
  {
    hide LocatorHeights, Back, Distance;
    BackNone(h);
    DistanceNext(1, 0);
    if count == 10 {
      LocatorDoubles(h, 1, 10, i);
    } else if i > 0 {
      LocatorNext(h, 1, count, i);
      LocatorSteps(Back(h, 1), count + 1, i - 1);
      BackTwice(h, 1, if i - 1 <= 9 - count then i - 1 else 9 - count + Distance(1, i - 1 - (9 - count)));
    }
  }

  // The heights of a locator: ten single steps back, and from there distances of
  // 1, 3, 7 and so on; so there are few of them.
  lemma LocatorAt(h: nat, i: nat)
    requires i < |LocatorHeights(h, 1, 0)|
    ensures i <= 10 ==> LocatorHeights(h, 1, 0)[i] == Max(0, h - i)
    ensures i >= 10 ==> LocatorHeights(h, 1, 0)[i] == Max(0, h - 9 - Pow2(i - 10))
  {
    hide LocatorHeights;
    LocatorSteps(h, 0, i);
    assert Pow2(0) == 1;
  }

  lemma LocatorIsShort(h: nat)
    ensures |LocatorHeights(h, 1, 0)| <= 12 + BitLength(h)
  {
    hide LocatorHeights, Pow2, BitLength;
    var hs := LocatorHeights(h, 1, 0);
    if |hs| > 12 + BitLength(h) {
      var i := |hs| - 2;
      assert hs[i] > hs[i + 1];
      LocatorAt(h, i);
      PowerAbove(h);
      Pow2Monotone(BitLength(h), i - 10);
    }
  }

  lemma {:induction false} PowerAbove(h: nat)
    ensures h < Pow2(BitLength(h))
  {
    if h > 0 {
      PowerAbove(h / 2);
    }
  }

  // The blocks of a locator are the ancestors of its first block at those heights.
  ghost predicate Located(v: seq<BlockIndex>, b: BlockIndex, hs: seq<nat>) {
    Linked(b) && |v| == |hs| && forall i | 0 <= i < |v| :: hs[i] <= b.nHeight && v[i] == Ancestor(b, hs[i])
  }

  // The locator so far, and what is left from block p on.
  ghost predicate Locating(v: seq<BlockIndex>, start: BlockIndex, p: BlockIndex, step: nat)
    requires Linked(start) && step > 0
  {
    && IsAncestor(p, start) && |LocatorHeights(start.nHeight, 1, 0)| >= |v|
    && LocatorHeights(start.nHeight, 1, 0)[|v|..] == LocatorHeights(p.nHeight, step, |v|)
    && Located(v, start, LocatorHeights(start.nHeight, 1, 0)[..|v|])
  }

  lemma LocatingStarts(b: BlockIndex)
    requires Linked(b)
    ensures Locating([], b, b, 1)
  {
  }

  lemma LocatingStep(v: seq<BlockIndex>, start: BlockIndex, p: BlockIndex, step: nat)
    requires Linked(start) && Linked(p) && step > 0 && Locating(v, start, p, step)
    ensures p.nHeight == 0 ==> Located(v + [p], start, LocatorHeights(start.nHeight, 1, 0))
    ensures p.nHeight > 0 ==>
              Locating(v + [p], start, Ancestor(p, if p.nHeight > step then p.nHeight - step else 0),
                       if |v| + 1 > 10 then step * 2 else step)
  {
    hide Located, Ancestor, Linked;
    var hs := LocatorHeights(start.nHeight, 1, 0);
    assert hs[|v|] == hs[|v|..][0] == p.nHeight;
    assert hs[..|v| + 1] == hs[..|v|] + [p.nHeight];
    LocatedMore(v, start, hs[..|v|], p);
    if p.nHeight == 0 {
      assert hs[..|v| + 1] == hs;
    } else {
      AncestorOfAncestor(start, p.nHeight, if p.nHeight > step then p.nHeight - step else 0);
      assert hs[|v| + 1..] == hs[|v|..][1..];
    }
  }

  lemma IndexIsAncestor(chain: CChain, tree: set<BlockIndex>, b: BlockIndex, h: nat)
    requires chain.Valid(tree) && Linked(b) && chain.Contains(b) && h <= b.nHeight
    ensures chain.At(h) == Ancestor(b, h)
  {
    var tip := chain.Tip();
    ContainsAncestors(chain, tree, tip, b);
    AncestorOfAncestor(tip, b.nHeight, h);
  }

  lemma LocatedMore(v: seq<BlockIndex>, b: BlockIndex, hs: seq<nat>, c: BlockIndex)
    requires Located(v, b, hs) && IsAncestor(c, b)
    ensures Located(v + [c], b, hs + [c.nHeight])
  {
  }

  lemma ContainsAncestors(chain: CChain, tree: set<BlockIndex>, tip: BlockIndex, b: BlockIndex)
    requires chain.Valid(tree) && chain.Tip() == tip && Linked(b)
    ensures Linked(tip) && (chain.Contains(b) <==> IsAncestor(b, tip))
  {
  }

  // A common ancestor of a block and of b is one of its parent, unless it is
  // the block itself.
  lemma AncestorOfParent(c: BlockIndex, b: BlockIndex)
    requires Linked(b) && c != b && IsAncestor(c, b)
    ensures b.pprev != null && IsAncestor(c, b.pprev)
  {
  }

  method LastCommonAncestor(a: BlockIndex, b: BlockIndex, ghost tree: set<BlockIndex>) returns (r: BlockIndex?)
    requires Tree(tree) && a in tree && b in tree
    ensures Linked(a) && Linked(b) && HighestCommon(r, a, b, tree)
  {
    assert Linked(a) && Linked(b);
    hide Tree;
    var pa: BlockIndex?, pb: BlockIndex? := a, b;
    if a.nHeight > b.nHeight {
      ghost var steps;
      pa, steps := a.GetAncestor(b.nHeight, tree);
    } else if b.nHeight > a.nHeight {
      ghost var steps;
      pb, steps := b.GetAncestor(a.nHeight, tree);
    }
    CommonBelow(a, b, pa, pb, tree);
    while pa != pb && pa != null && pb != null
      invariant Meeting(a, b, pa, pb, tree)
      decreases if pa == null then 0 else pa.nHeight + 1
    {
      MeetingStep(a, b, pa, pb, tree);
      pa, pb := pa.pprev, pb.pprev;
    }
    assert pa == pb;
    return pa;
  }

  // An ancestor of b with every common ancestor of b and tip at or below it.
  ghost predicate Above(b: BlockIndex, tip: BlockIndex, r: BlockIndex?, tree: set<BlockIndex>)
    requires Linked(tip)
    reads tree
  {
    && Tree(tree) && Linked(b) && (r != null ==> r in tree && IsAncestor(r, b))
    && (forall c | c in tree && IsAncestor(c, b) && IsAncestor(c, tip) :: r != null && Linked(r) && IsAncestor(c, r))
  }

  lemma ForkBelow(b: BlockIndex, tip: BlockIndex, r: BlockIndex?, tree: set<BlockIndex>)
    requires Tree(tree) && b in tree && tip in tree && r != null && r in tree
    requires IsAncestor(r, b) && (r == b || r.nHeight == tip.nHeight)
    ensures Above(b, tip, r, tree)
  {
    forall c | c in tree && IsAncestor(c, b) && IsAncestor(c, tip)
      ensures IsAncestor(c, r)
    {
      AncestorOfAncestor(b, r.nHeight, c.nHeight);
    }
  }

  lemma ForkStep(b: BlockIndex, tip: BlockIndex, r: BlockIndex, tree: set<BlockIndex>)
    requires Linked(tip) && Above(b, tip, r, tree) && Linked(r) && !IsAncestor(r, tip)
    ensures Above(b, tip, r.pprev, tree) && (r.pprev != null ==> r.pprev in tree && r.pprev.nHeight < r.nHeight)
  {
    ParentKnown(tree, r);
    if r.pprev != null {
      AncestorOfAncestor(b, r.nHeight, r.nHeight - 1);
    }
    forall c | c in tree && IsAncestor(c, b) && IsAncestor(c, tip)
      ensures r.pprev != null && IsAncestor(c, r.pprev)
    {
      AncestorOfParent(c, r);
    }
  }

  // Two ancestors at the same height, with every common ancestor at or below.
  ghost predicate Meeting(a: BlockIndex, b: BlockIndex, pa: BlockIndex?, pb: BlockIndex?, tree: set<BlockIndex>)
    reads tree
  {
    && Tree(tree) && Linked(a) && Linked(b) && (pa == null <==> pb == null)
    && (pa != null && pb != null ==>
          pa in tree && pb in tree && pa.nHeight == pb.nHeight && IsAncestor(pa, a) && IsAncestor(pb, b))
    && (forall c | c in tree && IsAncestor(c, a) && IsAncestor(c, b) ::
          pa != null && pb != null && Linked(pa) && Linked(pb) && IsAncestor(c, pa) && IsAncestor(c, pb))
  }

  lemma CommonBelow(a: BlockIndex, b: BlockIndex, pa: BlockIndex?, pb: BlockIndex?, tree: set<BlockIndex>)
    requires Tree(tree) && Linked(a) && Linked(b)
    requires pa != null && pb != null && pa in tree && pb in tree && pa.nHeight == pb.nHeight
    requires IsAncestor(pa, a) && IsAncestor(pb, b) && (pa.nHeight == a.nHeight || pa.nHeight == b.nHeight)
    ensures Meeting(a, b, pa, pb, tree)
  {
    forall c | c in tree && IsAncestor(c, a) && IsAncestor(c, b)
      ensures IsAncestor(c, pa) && IsAncestor(c, pb)
    {
      AncestorOfAncestor(a, pa.nHeight, c.nHeight);
      AncestorOfAncestor(b, pb.nHeight, c.nHeight);
    }
  }

  lemma MeetingStep(a: BlockIndex, b: BlockIndex, pa: BlockIndex, pb: BlockIndex, tree: set<BlockIndex>)
    requires Meeting(a, b, pa, pb, tree) && pa != pb
    ensures Meeting(a, b, pa.pprev, pb.pprev, tree)
  {
    ParentKnown(tree, pa);
    ParentKnown(tree, pb);
    if pa.pprev != null {
      AncestorOfAncestor(a, pa.nHeight, pa.nHeight - 1);
      AncestorOfAncestor(b, pb.nHeight, pb.nHeight - 1);
    }
    forall c | c in tree && IsAncestor(c, a) && IsAncestor(c, b)
      ensures pa.pprev != null && pb.pprev != null && IsAncestor(c, pa.pprev) && IsAncestor(c, pb.pprev)
    {
      assert c.nHeight == pa.nHeight ==> c == pa && c == pb;
      AncestorOfParent(c, pa);
      AncestorOfParent(c, pb);
    }
  }

  // The block at each height is the ancestor of b at that height.
  ghost predicate IsPath(v: seq<BlockIndex?>, b: BlockIndex) {
    Linked(b) && |v| == b.nHeight + 1 && forall h | 0 <= h <= b.nHeight :: v[h] == Ancestor(b, h)
  }

  function Resized(v: seq<BlockIndex?>, n: nat): seq<BlockIndex?> {
    if n <= |v| then v[..n] else v + seq(n - |v|, _ => null)
  }

  lemma ResizedLength(v: seq<BlockIndex?>, n: nat)
    ensures |Resized(v, n)| == n
  {
  }

  // The blocks above a height are in place.
  ghost predicate WrittenAbove(v: seq<BlockIndex?>, tip: BlockIndex, low: int)
    requires Linked(tip) && |v| == tip.nHeight + 1
  {
    -1 <= low && forall h | low < h <= tip.nHeight :: v[h] == Ancestor(tip, h)
  }

  lemma NothingWritten(v: seq<BlockIndex?>, tip: BlockIndex)
    requires Linked(tip) && |v| == tip.nHeight + 1
    ensures WrittenAbove(v, tip, tip.nHeight)
  {
  }

  lemma WriteStep(v: seq<BlockIndex?>, tip: BlockIndex, b: BlockIndex)
    requires Linked(tip) && |v| == tip.nHeight + 1 && IsAncestor(b, tip) && WrittenAbove(v, tip, b.nHeight)
    ensures WrittenAbove(v[b.nHeight := b], tip, b.nHeight - 1)
  {
  }

  lemma PathWritten(v: seq<BlockIndex?>, tip: BlockIndex, low: int)
    requires Linked(tip) && |v| == tip.nHeight + 1 && WrittenAbove(v, tip, low)
    requires forall h | 0 <= h <= low && h <= tip.nHeight :: v[h] == Ancestor(tip, h)
    ensures IsPath(v, tip) && v[tip.nHeight] == tip
  {
  }

  lemma ParentKnown(tree: set<BlockIndex>, b: BlockIndex)
    requires Tree(tree) && b in tree
    ensures Linked(b) && (b.pprev != null ==> b.pprev in tree && Linked(b.pprev) && b.pprev.nHeight == b.nHeight - 1)
    ensures b.pprev == null ==> b.nHeight == 0
  {
  }

  // Below a block that is in place already, everything is in place.
  lemma RestInPlace(was: seq<BlockIndex?>, tip: BlockIndex, b: BlockIndex, v: seq<BlockIndex?>)
    requires Linked(tip) && Linked(b) && IsAncestor(b, tip) && |v| == tip.nHeight + 1
    requires was != [] ==> was[|was| - 1] != null && IsPath(was, was[|was| - 1])
    requires Resized(was, tip.nHeight + 1)[b.nHeight] == b
    requires v[..b.nHeight + 1] == Resized(was, tip.nHeight + 1)[..b.nHeight + 1]
    ensures forall h | 0 <= h <= b.nHeight :: v[h] == Ancestor(tip, h)
  {
    hide Linked;
    var old_ := was[|was| - 1];
    forall h | 0 <= h <= b.nHeight
      ensures v[h] == Ancestor(tip, h)
    {
      assert v[h] == v[..b.nHeight + 1][h] == was[h];
      AncestorOfAncestor(old_, b.nHeight, h);
      AncestorOfAncestor(tip, b.nHeight, h);
    }
  }
}
