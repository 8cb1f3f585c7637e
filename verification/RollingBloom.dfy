/**
 The rolling Bloom filter: two bit planes hold, for every position, in which of
 three generations it was last set; starting a generation wipes the one before
 last but one.
 */
module RollingBloom {
  import opened Numbers

  type Key = seq<bv8>

  // MurmurHash3 over the number of the hash function, the tweak and the key.
  type Hash = (nat, bv32, Key) -> bv32

  // ------------------------------------------------------------- the bit planes

  // The bit of a position inside its word.
  function Mask(h: bv32): bv64 {
    (1 as bv64) << (h & 0x3f)
  }

  predicate HasBit(w: bv64, m: bv64) {
    w & m != 0
  }

  predicate OneBit(m: bv64) {
    m != 0 && m & (m - 1) == 0
  }

  lemma MaskOneBit(h: bv32)
    ensures OneBit(Mask(h))
  {
  }

  lemma OneBitsDisjoint(m: bv64, k: bv64)
    requires OneBit(m) && OneBit(k) && m != k
    ensures m & k == 0
  {
  }

  lemma AllOrNothing(w: bv64, m: bv64)
    requires OneBit(m)
    ensures w & m == 0 || w & m == m
  {
  }

  function And(a: bv64, b: bv64): bv64 {
    a & b
  }

  function Or(a: bv64, b: bv64): bv64 {
    a | b
  }

  function Xor(a: bv64, b: bv64): bv64 {
    a ^ b
  }

  function Not(a: bv64): bv64 {
    !a
  }

  // Reading one bit commutes with the word operations.
  lemma BitAnd(a: bv64, b: bv64, m: bv64)
    requires OneBit(m)
    ensures HasBit(And(a, b), m) <==> HasBit(a, m) && HasBit(b, m)
  {
    AllOrNothing(a, m);
    AllOrNothing(b, m);
    AndAnd(a, b, m);
  }

  lemma AndAnd(a: bv64, b: bv64, m: bv64)
    ensures And(And(a, b), m) == And(And(a, m), And(b, m))
  {
  }

  lemma BitOr(a: bv64, b: bv64, m: bv64)
    requires OneBit(m)
    ensures HasBit(Or(a, b), m) <==> HasBit(a, m) || HasBit(b, m)
  {
    hide And, Or, Not, HasBit, OneBit;
    OrByAnd(a, b);
    BitNot(And(Not(a), Not(b)), m);
    BitAnd(Not(a), Not(b), m);
    BitNot(a, m);
    BitNot(b, m);
  }

  lemma OrByAnd(a: bv64, b: bv64)
    ensures Or(a, b) == Not(And(Not(a), Not(b)))
  {
  }

  lemma BitNot(a: bv64, m: bv64)
    requires OneBit(m)
    ensures HasBit(Not(a), m) <==> !HasBit(a, m)
  {
    AllOrNothing(a, m);
    assert (!a) & m == m ^ (a & m);
  }

  lemma BitXor(a: bv64, b: bv64, m: bv64)
    requires OneBit(m)
    ensures HasBit(Xor(a, b), m) <==> HasBit(a, m) != HasBit(b, m)
  {
    hide HasBit, OneBit, And, Or, Not, Xor;
    XorByAnd(a, b);
    BitOr(And(a, Not(b)), And(Not(a), b), m);
    BitAnd(a, Not(b), m);
    BitAnd(Not(a), b, m);
    BitNot(a, m);
    BitNot(b, m);
  }

  lemma XorByAnd(a: bv64, b: bv64)
    ensures Xor(a, b) == Or(And(a, Not(b)), And(Not(a), b))
  {
  }

  lemma BitConstant(m: bv64)
    requires OneBit(m)
    ensures HasBit(0xffff_ffff_ffff_ffff, m) && !HasBit(0, m)
  {
  }

  // The generation that two planes record for a bit; 0 is none.
  function Code(p1: bv64, p2: bv64, m: bv64): nat {
    (if HasBit(p1, m) then 1 else 0) + (if HasBit(p2, m) then 2 else 0)
  }

  // Whole words of the low and of the high bit of a generation number.
  function Plane1(g: nat): bv64 {
    if g % 2 == 1 then 0xffff_ffff_ffff_ffff else 0
  }

  function Plane2(g: nat): bv64 {
    if g / 2 == 1 then 0xffff_ffff_ffff_ffff else 0
  }

  function WipeMask(p1: bv64, p2: bv64, g: nat): bv64 {
    Or(Xor(p1, Plane1(g)), Xor(p2, Plane2(g)))
  }

  lemma WipeBit(p1: bv64, p2: bv64, m: bv64, g: nat)
    requires OneBit(m) && 1 <= g <= 3
    ensures HasBit(And(p1, WipeMask(p1, p2, g)), m) <==> HasBit(p1, m) && Code(p1, p2, m) != g
    ensures HasBit(And(p2, WipeMask(p1, p2, g)), m) <==> HasBit(p2, m) && Code(p1, p2, m) != g
  {
    hide HasBit, OneBit, And, Or, Xor;
    var w := WipeMask(p1, p2, g);
    BitAnd(p1, w, m);
    BitAnd(p2, w, m);
    BitOr(Xor(p1, Plane1(g)), Xor(p2, Plane2(g)), m);
    BitXor(p1, Plane1(g), m);
    BitXor(p2, Plane2(g), m);
    BitConstant(m);
    assert g in {1, 2, 3};
  }

  // Wiping a generation clears exactly the positions that record it.
  lemma Wipes(p1: bv64, p2: bv64, m: bv64, g: nat)
    requires OneBit(m) && 1 <= g <= 3
    ensures var w := WipeMask(p1, p2, g);
            Code(And(p1, w), And(p2, w), m) == if Code(p1, p2, m) == g then 0 else Code(p1, p2, m)
  {
    hide HasBit, WipeMask, OneBit, And;
    WipeBit(p1, p2, m, g);
  }

  function Written(w: bv64, m: bv64, set_: bool): bv64 {
    Or(And(w, Not(m)), if set_ then m else 0)
  }

  lemma WriteBit(w: bv64, m: bv64, set_: bool, k: bv64)
    requires OneBit(m) && OneBit(k)
    ensures HasBit(Written(w, m, set_), k) <==> if k == m then set_ else HasBit(w, k)
  {
    hide HasBit, OneBit, And, Or, Not;
    BitOr(And(w, Not(m)), if set_ then m else 0, k);
    BitAnd(w, Not(m), k);
    BitNot(m, k);
    BitConstant(k);
    OneBitMeets(m, k);
  }

  lemma OneBitMeets(m: bv64, k: bv64)
    requires OneBit(m) && OneBit(k)
    ensures HasBit(m, k) <==> m == k
  {
    if m != k {
      OneBitsDisjoint(m, k);
    }
  }

  lemma Writes(p1: bv64, p2: bv64, m: bv64, g: nat, k: bv64)
    requires OneBit(m) && OneBit(k) && g <= 3
    ensures Code(Written(p1, m, g % 2 == 1), Written(p2, m, g / 2 == 1), k) == if k == m then g else Code(p1, p2, k)
  {
    hide HasBit, Written, OneBit;
    WriteBit(p1, m, g % 2 == 1, k);
    WriteBit(p2, m, g / 2 == 1, k);
    assert g in {0, 1, 2, 3};
  }

  lemma Tests(p1: bv64, p2: bv64, m: bv64)
    requires OneBit(m)
    ensures HasBit(Or(p1, p2), m) <==> Code(p1, p2, m) != 0
  {
    hide HasBit, Or, OneBit;
    BitOr(p1, p2, m);
  }

  // ------------------------------------------------------ positions and epochs

  // The pair of words that a hash selects among `size` words.
  function Pair(h: bv32, size: nat): (p: nat)
    requires size > 0 && size % 2 == 0
    ensures 2 * p + 1 < size
  {
    ((h >> 6) as nat) % size / 2
  }

  // Two hashes share a position exactly if they agree in their lowest six bits and
  // the rest of them, modulo the number of words, selects the same pair of words.
  lemma SamePosition(h: bv32, k: bv32, size: nat)
    requires size > 0 && size % 2 == 0
    ensures Pair(h, size) == Pair(k, size) && Mask(h) == Mask(k) <==>
            (h >> 6) as nat % size / 2 == (k >> 6) as nat % size / 2 && h & 0x3f == k & 0x3f
  {
    MaskInjective(h & 0x3f, k & 0x3f);
  }

  lemma MaskInjective(a: bv32, b: bv32)
    requires a < 64 && b < 64
    ensures (1 as bv64) << a == (1 as bv64) << b <==> a == b
  {
  }

  // The generation recorded at a position.
  function Gen(data: seq<bv64>, pair: nat, m: bv64): nat
    requires 2 * pair + 1 < |data|
  {
    Code(data[2 * pair], data[2 * pair + 1], m)
  }

  // Where a generation is wiped, it is gone, and nothing else changes.
  ghost predicate Wiped(was: seq<bv64>, now: seq<bv64>, g: nat) {
    && |now| == |was|
    && forall pair: nat, m | 2 * pair + 1 < |was| && OneBit(m) ::
         Gen(now, pair, m) == if Gen(was, pair, m) == g then 0 else Gen(was, pair, m)
  }

  // One position records g, and nothing else changes.
  ghost predicate Stored(was: seq<bv64>, now: seq<bv64>, pair: nat, m: bv64, g: nat) {
    && |now| == |was|
    && forall p: nat, k | 2 * p + 1 < |was| && OneBit(k) ::
         Gen(now, p, k) == if p == pair && k == m then g else Gen(was, p, k)
  }

  // g is the number of an epoch from lo to cur, of the last three.
  predicate Stamped(g: nat, lo: nat, cur: nat) {
    || (lo <= cur && g == 1 + cur % 3)
    || (lo + 1 <= cur && g == 1 + (cur - 1) % 3)
    || (lo + 2 <= cur && g == 1 + (cur - 2) % 3)
  }

  // A new epoch takes the number of the one it wipes: of none still needed.
  lemma StampedNext(g: nat, lo: nat, cur: nat)
    requires Stamped(g, lo, cur) && lo + 2 >= cur + 1
    ensures g != 1 + (cur + 1) % 3 && Stamped(g, lo, cur + 1)
  {
  }

  lemma StampedSet(g: nat, lo: nat, cur: nat)
    requires Stamped(g, lo, cur)
    ensures g != 0
  {
  }

  // The epoch of insert i.
  function Epoch(i: nat, per: nat): nat
    requires per > 0
  {
    i / per
  }

  /** What places keys: the hash with its tweak, how often it is used, and the
      length of an epoch. */
  datatype Setting = Setting(hash: Hash, nTweak: bv32, nHashFuncs: nat, per: nat)

  // The generation recorded where hash function j puts a key.
  ghost function Spot(st: Setting, data: seq<bv64>, key: Key, j: nat): nat
    requires |data| > 0 && |data| % 2 == 0
  {
    var h := st.hash(j, st.nTweak, key);
    Gen(data, Pair(h, |data|), Mask(h))
  }

  // Every key of the last three epochs is stamped, as seen from epoch cur.
  ghost predicate Remembered(st: Setting, data: seq<bv64>, keys: seq<Key>, cur: nat)
    requires |data| > 0 && |data| % 2 == 0 && st.per > 0
  {
    forall i: nat, j: nat | i < |keys| && j < st.nHashFuncs && Epoch(i, st.per) + 2 >= cur ::
      Stamped(Spot(st, data, keys[i], j), Epoch(i, st.per), cur)
  }

  lemma RememberedWipe(st: Setting, was: seq<bv64>, now: seq<bv64>, keys: seq<Key>, cur: nat)
    requires |was| > 0 && |was| % 2 == 0 && st.per > 0 && Remembered(st, was, keys, cur) && Wiped(was, now, 1 + (cur + 1) % 3)
    ensures |now| == |was| && Remembered(st, now, keys, cur + 1)
  {
    hide Gen, Stamped, OneBit, Wiped, Epoch, Pair, Mask;
    WipedLength(was, now, 1 + (cur + 1) % 3);
    forall i: nat, j: nat | i < |keys| && j < st.nHashFuncs && Epoch(i, st.per) + 2 >= cur + 1
      ensures Stamped(Spot(st, now, keys[i], j), Epoch(i, st.per), cur + 1)
    {
      var h := st.hash(j, st.nTweak, keys[i]);
      assert Stamped(Spot(st, was, keys[i], j), Epoch(i, st.per), cur);
      StampedNext(Spot(st, was, keys[i], j), Epoch(i, st.per), cur);
      MaskOneBit(h);
      WipedAt(was, now, 1 + (cur + 1) % 3, Pair(h, |was|), Mask(h));
    }
  }

  lemma WipedLength(was: seq<bv64>, now: seq<bv64>, g: nat)
    requires Wiped(was, now, g)
    ensures |now| == |was|
  {
  }

  lemma StoredLength(was: seq<bv64>, now: seq<bv64>, pair: nat, m: bv64, g: nat)
    requires Stored(was, now, pair, m, g)
    ensures |now| == |was|
  {
  }

  lemma RememberedStore(st: Setting, was: seq<bv64>, now: seq<bv64>, h: bv32, keys: seq<Key>, cur: nat)
    requires |was| > 0 && |was| % 2 == 0 && st.per > 0 && Remembered(st, was, keys, cur)
    requires Stored(was, now, Pair(h, |was|), Mask(h), 1 + cur % 3)
    requires forall i: nat | i < |keys| :: Epoch(i, st.per) <= cur
    ensures |now| == |was| && Remembered(st, now, keys, cur)
  {
    hide Gen, Stamped, OneBit, Stored, Epoch, Pair, Mask;
    StoredLength(was, now, Pair(h, |was|), Mask(h), 1 + cur % 3);
    forall i: nat, j: nat | i < |keys| && j < st.nHashFuncs && Epoch(i, st.per) + 2 >= cur
      ensures Stamped(Spot(st, now, keys[i], j), Epoch(i, st.per), cur)
    {
      var g := st.hash(j, st.nTweak, keys[i]);
      MaskOneBit(g);
      assert Stamped(Spot(st, was, keys[i], j), Epoch(i, st.per), cur);
      StampedStore(was, now, Pair(h, |was|), Mask(h), cur, Pair(g, |was|), Mask(g), Epoch(i, st.per));
    }
  }

  // The first n hash functions have stored a key.
  ghost predicate StoredUpTo(st: Setting, data: seq<bv64>, key: Key, n: nat, g: nat)
    requires |data| > 0 && |data| % 2 == 0
  {
    forall j: nat | j < n :: Spot(st, data, key, j) == g
  }

  lemma StoreStep(st: Setting, was: seq<bv64>, now: seq<bv64>, key: Key, n: nat, g: nat)
    requires |was| > 0 && |was| % 2 == 0 && StoredUpTo(st, was, key, n, g)
    requires var h := st.hash(n, st.nTweak, key); Stored(was, now, Pair(h, |was|), Mask(h), g)
    ensures |now| == |was| && StoredUpTo(st, now, key, n + 1, g)
  {
    hide Gen, OneBit, Stored, Pair, Mask;
    var h := st.hash(n, st.nTweak, key);
    StoredLength(was, now, Pair(h, |was|), Mask(h), g);
    forall j: nat | j < n + 1
      ensures Spot(st, now, key, j) == g
    {
      var f := st.hash(j, st.nTweak, key);
      assert j < n ==> Spot(st, was, key, j) == g;
      MaskOneBit(f);
      StoredAt(was, now, Pair(h, |was|), Mask(h), g, Pair(f, |was|), Mask(f));
    }
  }

  // With the new key the filter remembers one more.
  lemma RememberedMore(st: Setting, data: seq<bv64>, keys: seq<Key>, key: Key, cur: nat)
    requires |data| > 0 && |data| % 2 == 0 && st.per > 0 && Remembered(st, data, keys, cur) && cur == Epoch(|keys|, st.per)
    requires StoredUpTo(st, data, key, st.nHashFuncs, 1 + cur % 3)
    ensures Remembered(st, data, keys + [key], cur)
  {
    hide Stamped, Epoch, Spot;
    StampedNow(cur);
  }

  // ---------------------------------------------------------- what is forgotten

  // Hash function j puts a key at a position.
  ghost predicate Puts(st: Setting, size: nat, key: Key, j: nat, pair: nat, m: bv64)
    requires size > 0 && size % 2 == 0
  {
    var h := st.hash(j, st.nTweak, key);
    Pair(h, size) == pair && Mask(h) == m
  }

  // Key i, of one of the last three epochs, has left its stamp at a position.
  ghost predicate CausedBy(st: Setting, size: nat, keys: seq<Key>, cur: nat, pair: nat, m: bv64, g: nat, i: nat, j: nat)
    requires size > 0 && size % 2 == 0 && st.per > 0
  {
    && i < |keys| && j < st.nHashFuncs && Epoch(i, st.per) <= cur <= Epoch(i, st.per) + 2
    && Puts(st, size, keys[i], j, pair, m) && g == 1 + Epoch(i, st.per) % 3
  }

  ghost predicate Caused(st: Setting, size: nat, keys: seq<Key>, cur: nat, pair: nat, m: bv64, g: nat)
    requires size > 0 && size % 2 == 0 && st.per > 0
  {
    exists i: nat, j: nat :: CausedBy(st, size, keys, cur, pair, m, g, i, j)
  }

  // Nothing is set but by keys of the last three epochs.
  ghost predicate Justified(st: Setting, data: seq<bv64>, keys: seq<Key>, cur: nat)
    requires |data| > 0 && |data| % 2 == 0 && st.per > 0
  {
    forall pair: nat, m | 2 * pair + 1 < |data| && OneBit(m) && Gen(data, pair, m) != 0 ::
      Caused(st, |data|, keys, cur, pair, m, Gen(data, pair, m))
  }

  // Starting a generation forgets the oldest of the three epochs.
  lemma JustifiedWipe(st: Setting, was: seq<bv64>, now: seq<bv64>, keys: seq<Key>, cur: nat)
    requires |was| > 0 && |was| % 2 == 0 && st.per > 0 && Justified(st, was, keys, cur) && Wiped(was, now, 1 + (cur + 1) % 3)
    ensures |now| == |was| && Justified(st, now, keys, cur + 1)
  {
    hide Gen, OneBit, Wiped, Epoch, Puts;
    WipedLength(was, now, 1 + (cur + 1) % 3);
    forall pair: nat, m | 2 * pair + 1 < |now| && OneBit(m) && Gen(now, pair, m) != 0
      ensures Caused(st, |now|, keys, cur + 1, pair, m, Gen(now, pair, m))
    {
      WipedAt(was, now, 1 + (cur + 1) % 3, pair, m);
      var g := Gen(was, pair, m);
      assert Caused(st, |was|, keys, cur, pair, m, g);
      var i: nat, j: nat :| CausedBy(st, |was|, keys, cur, pair, m, g, i, j);
      OtherNumber(Epoch(i, st.per), cur);
      assert CausedBy(st, |now|, keys, cur + 1, pair, m, g, i, j);
    }
  }

  lemma OtherNumber(e: nat, cur: nat)
    requires e <= cur <= e + 2 && 1 + e % 3 != 1 + (cur + 1) % 3
    ensures cur + 1 <= e + 2
  {
  }

  lemma JustifiedMore(st: Setting, data: seq<bv64>, keys: seq<Key>, key: Key, cur: nat)
    requires |data| > 0 && |data| % 2 == 0 && st.per > 0 && Justified(st, data, keys, cur)
    ensures Justified(st, data, keys + [key], cur)
  {
    hide Gen, OneBit, Epoch, Puts;
    forall pair: nat, m | 2 * pair + 1 < |data| && OneBit(m) && Gen(data, pair, m) != 0
      ensures Caused(st, |data|, keys + [key], cur, pair, m, Gen(data, pair, m))
    {
      assert Caused(st, |data|, keys, cur, pair, m, Gen(data, pair, m));
      var i: nat, j: nat :| CausedBy(st, |data|, keys, cur, pair, m, Gen(data, pair, m), i, j);
      assert CausedBy(st, |data|, keys + [key], cur, pair, m, Gen(data, pair, m), i, j);
    }
  }

  lemma JustifiedStore(st: Setting, was: seq<bv64>, now: seq<bv64>, keys: seq<Key>, n: nat, cur: nat)
    requires |was| > 0 && |was| % 2 == 0 && st.per > 0 && Justified(st, was, keys, cur)
    requires keys != [] && n < st.nHashFuncs && cur == Epoch(|keys| - 1, st.per)
    requires var h := st.hash(n, st.nTweak, keys[|keys| - 1]); Stored(was, now, Pair(h, |was|), Mask(h), 1 + cur % 3)
    ensures |now| == |was| && Justified(st, now, keys, cur)
  {
    hide Gen, OneBit, Epoch, Stored, Pair, Mask;
    var h := st.hash(n, st.nTweak, keys[|keys| - 1]);
    StoredLength(was, now, Pair(h, |was|), Mask(h), 1 + cur % 3);
    forall pair: nat, m | 2 * pair + 1 < |now| && OneBit(m) && Gen(now, pair, m) != 0
      ensures Caused(st, |now|, keys, cur, pair, m, Gen(now, pair, m))
    {
      StoredAt(was, now, Pair(h, |was|), Mask(h), 1 + cur % 3, pair, m);
      if pair == Pair(h, |was|) && m == Mask(h) {
        assert CausedBy(st, |now|, keys, cur, pair, m, Gen(now, pair, m), |keys| - 1, n);
      } else {
        assert Caused(st, |was|, keys, cur, pair, m, Gen(was, pair, m));
      }
    }
  }

  lemma NothingSet(st: Setting, data: seq<bv64>, cur: nat)
    requires |data| > 0 && |data| % 2 == 0 && st.per > 0 && forall i | 0 <= i < |data| :: data[i] == 0
    ensures Justified(st, data, [], cur)
  {
    hide OneBit, HasBit;
    forall pair: nat, m | 2 * pair + 1 < |data| && OneBit(m)
      ensures Gen(data, pair, m) == 0
    {
      BitConstant(m);
    }
  }

  // One of the last 3 * per keys goes where hash function j puts this one.
  ghost predicate Shared(st: Setting, size: nat, keys: seq<Key>, key: Key, j: nat)
    requires size > 0 && size % 2 == 0
  {
    exists i: nat, k: nat :: SharedWith(st, size, keys, key, j, i, k)
  }

  ghost predicate SharedWith(st: Setting, size: nat, keys: seq<Key>, key: Key, j: nat, i: nat, k: nat)
    requires size > 0 && size % 2 == 0
  {
    && i < |keys| && |keys| - i <= 3 * st.per && k < st.nHashFuncs
    && var h := st.hash(j, st.nTweak, key); Puts(st, size, keys[i], k, Pair(h, size), Mask(h))
  }

  lemma SetIsShared(st: Setting, data: seq<bv64>, keys: seq<Key>, key: Key, j: nat)
    requires |data| > 0 && |data| % 2 == 0 && st.per > 0 && Justified(st, data, keys, Current(|keys|, st.per))
    requires Spot(st, data, key, j) != 0
    ensures Shared(st, |data|, keys, key, j)
  {
    hide Gen, OneBit, Epoch, Puts, Pair, Mask, Current;
    var h := st.hash(j, st.nTweak, key);
    var pair, m, cur := Pair(h, |data|), Mask(h), Current(|keys|, st.per);
    MaskOneBit(h);
    assert Caused(st, |data|, keys, cur, pair, m, Gen(data, pair, m));
    var i: nat, k: nat :| CausedBy(st, |data|, keys, cur, pair, m, Gen(data, pair, m), i, k);
    EpochIsRecent(|keys|, st.per, i);
    assert SharedWith(st, |data|, keys, key, j, i, k);
  }

  lemma EpochIsRecent(n: nat, per: nat, i: nat)
    requires per > 0 && i < n && Current(n, per) <= Epoch(i, per) + 2
    ensures n - i <= 3 * per
  {
    var c, e := (n - 1) / per, i / per;
    assert n - 1 == c * per + (n - 1) % per && i == e * per + i % per;
    ProductMonotone(per, c, e + 2);
  }

  // The epoch in which the last of n inserts was made.
  function Current(n: nat, per: nat): nat
    requires per > 0
  {
    if n == 0 then 0 else (n - 1) / per
  }

  class Filter {
    const hash: Hash
    const nHashFuncs: nat
    const nEntriesPerGeneration: nat
    const data: array<bv64>
    var nEntriesThisGeneration: nat
    var nGeneration: nat
    var nTweak: bv32
    // All keys inserted since the last reset.
    ghost var keys: seq<Key>

    ghost predicate Shape()
      reads this
    {
      data.Length > 0 && data.Length % 2 == 0 && 1 <= nGeneration <= 3
    }

    ghost function Set(): Setting
      reads this
    {
      Setting(hash, nTweak, nHashFuncs, nEntriesPerGeneration)
    }

    // The generation recorded where hash function j puts a key.
    ghost function At(key: Key, j: nat): nat
      requires data.Length > 0 && data.Length % 2 == 0
      reads this, data
    {
      Spot(Set(), data[..], key, j)
    }

    // The counters and the stamps, with epoch cur under way.
    ghost predicate InEpoch(cur: nat)
      requires data.Length > 0 && data.Length % 2 == 0 && nEntriesPerGeneration > 0
      reads this, data
    {
      && nGeneration == 1 + cur % 3 && nEntriesThisGeneration == |keys| - cur * nEntriesPerGeneration
      && Remembered(Set(), data[..], keys, cur)
    }

    ghost predicate Valid()
      reads this, data
    {
      && Shape()
      && (nEntriesPerGeneration > 0 ==>
            var cur := Current(|keys|, nEntriesPerGeneration);
            InEpoch(cur) && Justified(Set(), data[..], keys, cur))
    }

    // The source takes the number of hash functions and of words from the
    // wanted false-positive rate.
    constructor (hash: Hash, nElements: nat, nHashFuncs: nat, nPairs: nat, nTweak: bv32)
      requires nPairs > 0
      ensures this.hash == hash && this.nHashFuncs == nHashFuncs && nEntriesPerGeneration == (nElements + 1) / 2
      ensures this.nTweak == nTweak && data.Length == 2 * nPairs
      ensures Valid() && keys == [] && fresh(data)
    {
      this.hash, this.nHashFuncs, nEntriesPerGeneration := hash, nHashFuncs, (nElements + 1) / 2;
      data := new bv64[2 * nPairs](_ => 0);
      this.nTweak, nEntriesThisGeneration, nGeneration, keys := nTweak, 0, 1, [];
      new;
      if nEntriesPerGeneration > 0 {
        NothingSet(Set(), data[..], 0);
      }
    }

    method Reset(nTweak: bv32)
      requires Valid()
      modifies this, data
      ensures Valid() && keys == [] && this.nTweak == nTweak && forall i | 0 <= i < data.Length :: data[i] == 0
    {
      this.nTweak := nTweak;
      nEntriesThisGeneration := 0;
      nGeneration := 1;
      for i := 0 to data.Length
        invariant forall k | 0 <= k < i :: data[k] == 0
        modifies data
      {
        data[i] := 0;
      }
      keys := [];
      if nEntriesPerGeneration > 0 {
        NothingSet(Set(), data[..], 0);
      }
    }

    // Clears the positions that record the current generation number.
    method Wipe()
      requires Shape()
      modifies data
      ensures Wiped(old(data[..]), data[..], nGeneration)
    {
      hide And, Code, WipeMask, OneBit;
      ghost var was := data[..];
      var p := 0;
      while p < data.Length
        invariant p % 2 == 0 && 0 <= p <= data.Length
        invariant forall k | p <= k < data.Length :: data[k] == was[k]
        invariant forall k: nat | 2 * k + 1 < p :: WipedPair(was, data[..], k, nGeneration)
      {
        var p1, p2 := data[p], data[p + 1];
        var mask := WipeMask(p1, p2, nGeneration);
        ghost var before := data[..];
        data[p] := And(p1, mask);
        data[p + 1] := And(p2, mask);
        forall k: nat | 2 * k + 1 < p + 2
          ensures WipedPair(was, data[..], k, nGeneration)
        {
          if 2 * k + 1 < p {
            assert WipedPair(was, before, k, nGeneration);
          }
        }
        p := p + 2;
      }
      WipedAll(was, data[..], nGeneration);
    }

    // Makes one position record the current generation.
    method Store(h: bv32)
      requires Shape()
      modifies data
      ensures Stored(old(data[..]), data[..], Pair(h, data.Length), Mask(h), nGeneration)
    {
      hide Written, Code, OneBit, Mask;
      ghost var was := data[..];
      var pair, m := Pair(h, data.Length), Mask(h);
      data[2 * pair] := Written(data[2 * pair], m, nGeneration % 2 == 1);
      data[2 * pair + 1] := Written(data[2 * pair + 1], m, nGeneration / 2 == 1);
      MaskOneBit(h);
      StoredAll(was, data[..], pair, m, nGeneration);
    }

    // Starts the next generation when the current one is full.
    method Rotate()
      requires Valid()
      modifies this`nEntriesThisGeneration, this`nGeneration, data
      ensures Shape() && (nEntriesPerGeneration > 0 ==>
                            var cur := Epoch(|keys|, nEntriesPerGeneration);
                            InEpoch(cur) && Justified(Set(), data[..], keys, cur))
    {
      hide Remembered, Justified, Wiped;
      ghost var per := nEntriesPerGeneration;
      if per > 0 {
        EpochOfNext(|keys|, per, nEntriesThisGeneration);
      }
      if nEntriesThisGeneration == nEntriesPerGeneration {
        ghost var cur, was := if per > 0 then Current(|keys|, per) else 0, data[..];
        nEntriesThisGeneration := 0;
        nGeneration := nGeneration + 1;
        if nGeneration == 4 {
          nGeneration := 1;
        }
        Wipe();
        if per > 0 {
          RememberedWipe(Set(), was, data[..], keys, cur);
          JustifiedWipe(Set(), was, data[..], keys, cur);
        }
      }
    }

    // The positions of one more key.
    method StoreAll(key: Key)
      requires Shape() && (nEntriesPerGeneration > 0 ==>
                             var cur := Epoch(|keys|, nEntriesPerGeneration);
                             InEpoch(cur) && Justified(Set(), data[..], keys, cur))
      modifies data
      ensures nEntriesPerGeneration > 0 ==> InEpoch(Epoch(|keys|, nEntriesPerGeneration))
      ensures StoredUpTo(Set(), data[..], key, nHashFuncs, nGeneration)
      ensures nEntriesPerGeneration > 0 ==> Justified(Set(), data[..], keys + [key], Epoch(|keys|, nEntriesPerGeneration))
    {
      hide Remembered, Justified, Stored, StoredUpTo, Epoch;
      ghost var st := Set();
      if nEntriesPerGeneration > 0 {
        EpochsGrow(|keys|, nEntriesPerGeneration);
        JustifiedMore(st, data[..], keys, key, Epoch(|keys|, nEntriesPerGeneration));
      }
      NothingStored(st, data[..], key, nGeneration);
      for n := 0 to nHashFuncs
        invariant nEntriesPerGeneration > 0 ==> InEpoch(Epoch(|keys|, nEntriesPerGeneration))
        invariant StoredUpTo(st, data[..], key, n, nGeneration)
        invariant nEntriesPerGeneration > 0 ==> Justified(st, data[..], keys + [key], Epoch(|keys|, nEntriesPerGeneration))
      {
        var h := hash(n, nTweak, key);
        ghost var was := data[..];
        Store(h);
        StoreStep(st, was, data[..], key, n, nGeneration);
        if nEntriesPerGeneration > 0 {
          RememberedStore(st, was, data[..], h, keys, Epoch(|keys|, nEntriesPerGeneration));
          JustifiedStore(st, was, data[..], keys + [key], n, Epoch(|keys|, nEntriesPerGeneration));
        }
      }
    }

    method Insert(key: Key)
      requires Valid()
      modifies this, data
      ensures Valid() && keys == old(keys) + [key] && nTweak == old(nTweak)
    {
      hide Remembered, Justified, StoredUpTo, Epoch;
      Rotate();
      StoreAll(key);
      nEntriesThisGeneration := nEntriesThisGeneration + 1;
      if nEntriesPerGeneration > 0 {
        RememberedMore(Set(), data[..], keys, key, Epoch(|keys|, nEntriesPerGeneration));
        EpochsGrow(|keys|, nEntriesPerGeneration);
      }
      keys := keys + [key];
    }

    // Whether a key may have been inserted; certain for the last keys, by a
    // number of at least nElements.
    method Contains(key: Key) returns (found: bool)
      requires Valid()
      ensures found <==> forall j: nat | j < nHashFuncs :: At(key, j) != 0
      ensures (exists i: nat :: i < |keys| && keys[i] == key && |keys| - i <= nEntriesThisGeneration + 2 * nEntriesPerGeneration) && nEntriesPerGeneration > 0
              ==> found
      ensures found && nEntriesPerGeneration > 0 ==> forall j: nat | j < nHashFuncs :: Shared(Set(), data.Length, keys, key, j)
    {
      hide Gen, Stamped, Mask, Epoch, OneBit, Justified, Shared;
      if i: nat :| nEntriesPerGeneration > 0 && i < |keys| && keys[i] == key
                   && |keys| - i <= nEntriesThisGeneration + 2 * nEntriesPerGeneration {
        RecentEpoch(|keys|, nEntriesPerGeneration, i);
        forall j: nat | j < nHashFuncs
          ensures At(key, j) != 0
        {
          StampedSet(At(keys[i], j), Epoch(i, nEntriesPerGeneration), Current(|keys|, nEntriesPerGeneration));
        }
      }
      for n := 0 to nHashFuncs
        invariant forall j: nat | j < n :: At(key, j) != 0
      {
        var h := hash(n, nTweak, key);
        var pair := Pair(h, data.Length);
        MaskOneBit(h);
        GenTest(data[..], pair, Mask(h));
        if !HasBit(Or(data[2 * pair], data[2 * pair + 1]), Mask(h)) {
          assert At(key, n) == 0;
          return false;
        }
      }
      if nEntriesPerGeneration > 0 {
        forall j: nat | j < nHashFuncs
          ensures Shared(Set(), data.Length, keys, key, j)
        {
          assert At(key, j) != 0;
          SetIsShared(Set(), data[..], keys, key, j);
        }
      }
      return true;
    }
  }

  lemma GenTest(data: seq<bv64>, pair: nat, m: bv64)
    requires 2 * pair + 1 < |data| && OneBit(m)
    ensures HasBit(Or(data[2 * pair], data[2 * pair + 1]), m) <==> Gen(data, pair, m) != 0
  {
    hide HasBit, Or, Code, OneBit;
    Tests(data[2 * pair], data[2 * pair + 1], m);
  }

  lemma NothingStored(st: Setting, data: seq<bv64>, key: Key, g: nat)
    requires |data| > 0 && |data| % 2 == 0
    ensures StoredUpTo(st, data, key, 0, g)
  {
  }

  lemma StampedNow(cur: nat)
    ensures Stamped(1 + cur % 3, cur, cur)
  {
  }

  lemma EpochsGrow(n: nat, per: nat)
    requires per > 0
    ensures Current(n + 1, per) == Epoch(n, per) && forall i: nat | i < n :: Epoch(i, per) <= Epoch(n, per)
  {
    forall i: nat | i < n
      ensures Epoch(i, per) <= Epoch(n, per)
    {
      QuotientMonotone(i, n, per);
    }
  }

  lemma QuotientMonotone(i: nat, n: nat, per: nat)
    requires per > 0 && i <= n
    ensures i / per <= n / per
  {
    assert i == (i / per) * per + i % per && n == (n / per) * per + n % per;
    if i / per >= n / per + 1 {
      ProductMonotone(per, n / per + 1, i / per);
    }
  }

  // The last count + 2 per inserts are of the last three epochs.
  lemma RecentEpoch(n: nat, per: nat, i: nat)
    requires per > 0 && i < n && n - i <= (n - Current(n, per) * per) + 2 * per
    ensures Epoch(i, per) + 2 >= Current(n, per)
  {
    var c := Current(n, per);
    assert i >= (c - 2) * per;
    if c >= 2 {
      QuotientMonotone((c - 2) * per, i, per);
      DivisionUnique((c - 2) * per, per, c - 2, 0);
    }
  }

  // Storing the current epoch keeps every stamp.
  lemma StampedStore(was: seq<bv64>, now: seq<bv64>, pair: nat, m: bv64, cur: nat, p: nat, k: bv64, lo: nat)
    requires Stored(was, now, pair, m, 1 + cur % 3) && 2 * p + 1 < |was| && OneBit(k)
    requires Stamped(Gen(was, p, k), lo, cur) && lo <= cur
    ensures |now| == |was| && Stamped(Gen(now, p, k), lo, cur)
  {
    hide Gen, OneBit, Stored;
    StoredAt(was, now, pair, m, 1 + cur % 3, p, k);
  }

  lemma WipedAt(was: seq<bv64>, now: seq<bv64>, g: nat, pair: nat, m: bv64)
    requires Wiped(was, now, g) && 2 * pair + 1 < |was| && OneBit(m)
    ensures |now| == |was| && Gen(now, pair, m) == if Gen(was, pair, m) == g then 0 else Gen(was, pair, m)
  {
  }

  lemma StoredAt(was: seq<bv64>, now: seq<bv64>, pair: nat, m: bv64, g: nat, p: nat, k: bv64)
    requires Stored(was, now, pair, m, g) && 2 * p + 1 < |was| && OneBit(k)
    ensures |now| == |was| && Gen(now, p, k) == if p == pair && k == m then g else Gen(was, p, k)
  {
  }

  lemma StoredAll(was: seq<bv64>, now: seq<bv64>, pair: nat, m: bv64, g: nat)
    requires |was| == |now| && 2 * pair + 1 < |was| && OneBit(m) && g <= 3
    requires now == was[2 * pair := Written(was[2 * pair], m, g % 2 == 1)][2 * pair + 1 := Written(was[2 * pair + 1], m, g / 2 == 1)]
    ensures Stored(was, now, pair, m, g)
  {
    hide Written, Code, OneBit;
    forall p: nat, k | 2 * p + 1 < |was| && OneBit(k)
      ensures Gen(now, p, k) == if p == pair && k == m then g else Gen(was, p, k)
    {
      if p == pair {
        Writes(was[2 * pair], was[2 * pair + 1], m, g, k);
      }
    }
  }

  // The next insert belongs to the current epoch unless that is full.
  lemma EpochOfNext(n: nat, per: nat, count: int)
    requires per > 0 && count == n - Current(n, per) * per
    ensures 0 <= count <= per
    ensures count == per ==> Epoch(n, per) == Current(n, per) + 1 && n - Epoch(n, per) * per == 0
    ensures count < per ==> Epoch(n, per) == Current(n, per) && n - Epoch(n, per) * per == count
  {
    var c := Current(n, per);
    if n > 0 {
      assert n - 1 == c * per + (n - 1) % per;
    }
    if count == per {
      assert n == (c + 1) * per;
      DivisionUnique(n, per, c + 1, 0);
    } else {
      DivisionUnique(n, per, c, count);
    }
  }

  ghost predicate WipedPair(was: seq<bv64>, now: seq<bv64>, k: nat, g: nat) {
    && 2 * k + 1 < |was| == |now|
    && now[2 * k] == And(was[2 * k], WipeMask(was[2 * k], was[2 * k + 1], g))
    && now[2 * k + 1] == And(was[2 * k + 1], WipeMask(was[2 * k], was[2 * k + 1], g))
  }

  lemma WipedAll(was: seq<bv64>, now: seq<bv64>, g: nat)
    requires |was| == |now| && |was| % 2 == 0 && 1 <= g <= 3
    requires forall k: nat | 2 * k + 1 < |was| :: WipedPair(was, now, k, g)
    ensures Wiped(was, now, g)
  {
    hide And, Code, WipeMask, OneBit;
    forall pair: nat, m | 2 * pair + 1 < |was| && OneBit(m)
      ensures Gen(now, pair, m) == if Gen(was, pair, m) == g then 0 else Gen(was, pair, m)
    {
      assert WipedPair(was, now, pair, g);
      Wipes(was[2 * pair], was[2 * pair + 1], m, g);
    }
  }

  // Whatever has been inserted, the last nElements keys are all found, and a
  // key is found only where the last 3 * ceil(nElements / 2) keys have set its
  // positions.
  method Run(hash: Hash, nElements: nat, nHashFuncs: nat, nPairs: nat, nTweak: bv32, keys: seq<Key>, key: Key) returns (found: bool)
    requires nPairs > 0
    ensures (exists i: nat :: i < |keys| && keys[i] == key && |keys| - i <= nElements) ==> found
    ensures found && nElements > 0 ==>
              var st := Setting(hash, nTweak, nHashFuncs, (nElements + 1) / 2);
              forall j: nat | j < nHashFuncs :: Shared(st, 2 * nPairs, keys, key, j)
  {
    hide Remembered, Justified, Shared;
    var filter := new Filter(hash, nElements, nHashFuncs, nPairs, nTweak);
    for n := 0 to |keys|
      invariant fresh(filter) && fresh(filter.data) && filter.Valid() && filter.keys == keys[..n]
      invariant filter.nEntriesPerGeneration == (nElements + 1) / 2 && filter.data.Length == 2 * nPairs
      invariant filter.hash == hash && filter.nHashFuncs == nHashFuncs && filter.nTweak == nTweak
    {
      filter.Insert(keys[n]);
    }
    assert keys[..|keys|] == keys;
    found := filter.Contains(key);
    assert filter.Set() == Setting(hash, nTweak, nHashFuncs, (nElements + 1) / 2);
  }
}
