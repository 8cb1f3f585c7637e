/**
 The block assembler: greedy selection of ancestor packages from the mempool.

 The mempool is a finite acyclic graph given by ancestor sets.  The score order
 of the two indexes is left open, so everything proved holds for every order.
 */
module Miner {
  import opened Collections
  import opened Consensus
  import opened Numbers

  const MAX_BLOCK_SERIALIZED_SIZE: nat := 32000000
  const MAX_BLOCK_SIGOPS_COST: nat := 640000
  const MAX_CONSECUTIVE_FAILURES: nat := 1000

  type TxIter = nat

  /** Sums over a set of transactions, one component per resource. */
  datatype Totals = Totals(size: nat, weight: nat, sigOps: nat, serialized: nat, fee: int, feeDelta: int) {
    function Plus(t: Totals): Totals {
      Totals(size + t.size, weight + t.weight, sigOps + t.sigOps, serialized + t.serialized, fee + t.fee, feeDelta + t.feeDelta)
    }

    function ModifiedFee(): int {
      fee + feeDelta
    }
  }

  const ZERO := Totals(0, 0, 0, 0, 0, 0)

  /** A mempool entry; `isEligible` stands for the final, witness and BPQ tests,
      and nBytesPerSigOp is the setting of that name. */
  datatype Entry = Entry(nTxWeight: nat, sigOpCost: nat, nTxSerialized: nat, nFee: int, feeDelta: int,
                         ancestors: set<TxIter>,
                         nSizeWithAncestors: nat, nModFeesWithAncestors: int, nSigOpCostWithAncestors: nat,
                         isEligible: bool, nBytesPerSigOp: nat) {
    // The virtual size.
    function TxSize(): nat {
      (Max(nTxWeight, sigOpCost * nBytesPerSigOp) + WITNESS_SCALE_FACTOR - 1) / WITNESS_SCALE_FACTOR
    }

    function ModifiedFee(): int {
      nFee + feeDelta
    }

    function CountWithAncestors(): nat {
      |ancestors| + 1
    }

    function Own(): Totals {
      Totals(TxSize(), nTxWeight, sigOpCost, nTxSerialized, nFee, feeDelta)
    }
  }

  // The virtual size is the least that is charged enough weight for the
  // transaction and for its signature operations.
  lemma TxSizeIsLeast(e: Entry, n: nat)
    ensures e.TxSize() <= n <==> e.nTxWeight <= 32 * n && e.sigOpCost * e.nBytesPerSigOp <= 32 * n
  {
    var m := Max(e.nTxWeight, e.sigOpCost * e.nBytesPerSigOp);
    assert e.TxSize() == (m + 31) / 32;
  }

  type Pool = map<TxIter, Entry>

  // A transaction together with its in-pool ancestors.
  function Package(pool: Pool, x: TxIter): set<TxIter>
    requires x in pool
  {
    pool[x].ancestors + {x}
  }

  ghost function Pick(s: set<TxIter>): TxIter
    requires s != {}
    ensures Pick(s) in s
  {
    var x :| x in s;
    x
  }

  ghost function Sum(pool: Pool, s: set<TxIter>): Totals
    requires s <= pool.Keys
  {
    if s == {} then ZERO else pool[Pick(s)].Own().Plus(Sum(pool, s - {Pick(s)}))
  }

  // The in-pool links form an acyclic graph, given by its ancestor sets.
  ghost predicate LinksValid(pool: Pool) {
    && (forall x | x in pool :: pool[x].ancestors <= pool.Keys && x !in pool[x].ancestors)
    && (forall x, y | x in pool && y in pool[x].ancestors :: pool[y].ancestors <= pool[x].ancestors)
  }

  ghost predicate TotalsExact(pool: Pool, x: TxIter)
    requires LinksValid(pool) && x in pool
  {
    && pool[x].nSizeWithAncestors == Sum(pool, Package(pool, x)).size
    && pool[x].nSigOpCostWithAncestors == Sum(pool, Package(pool, x)).sigOps
    && pool[x].nModFeesWithAncestors == Sum(pool, Package(pool, x)).ModifiedFee()
  }

  // What the mempool keeps true of its links and its cached ancestor totals.
  ghost predicate PoolValid(pool: Pool) {
    && LinksValid(pool)
    && (forall x {:trigger TotalsExact(pool, x)} | x in pool :: TotalsExact(pool, x))
  }

  lemma {:induction false} SumRemove(pool: Pool, s: set<TxIter>, x: TxIter)
    requires s <= pool.Keys && x in s
    ensures Sum(pool, s) == pool[x].Own().Plus(Sum(pool, s - {x}))
    decreases s
  {
    var y := Pick(s);
    if y != x {
      SumRemove(pool, s - {y}, x);
      SumRemove(pool, s - {x}, y);
      assert s - {y} - {x} == s - {x} - {y};
    }
  }

  lemma SumEmpty(pool: Pool, s: set<TxIter>)
    requires s == {}
    ensures Sum(pool, s) == ZERO
  {
  }

  lemma SumAdd(pool: Pool, s: set<TxIter>, x: TxIter)
    requires s <= pool.Keys && x in pool && x !in s
    ensures Sum(pool, s + {x}) == pool[x].Own().Plus(Sum(pool, s))
  {
    SumRemove(pool, s + {x}, x);
    assert s + {x} - {x} == s;
  }

  lemma {:induction false} SumMonotone(pool: Pool, s: set<TxIter>, t: set<TxIter>)
    requires s <= t <= pool.Keys
    ensures Sum(pool, s).size <= Sum(pool, t).size && Sum(pool, s).sigOps <= Sum(pool, t).sigOps
    ensures Sum(pool, s).serialized <= Sum(pool, t).serialized
    decreases t
  {
    if t <= s {
      assert s == t;
    } else {
      var x :| x in t && x !in s;
      SumRemove(pool, t, x);
      SumMonotone(pool, s, t - {x});
    }
  }

  // A transaction never weighs more than its virtual size is charged for.
  lemma {:induction false} WeightWithinSize(pool: Pool, s: set<TxIter>)
    requires s <= pool.Keys
    ensures Sum(pool, s).weight <= WITNESS_SCALE_FACTOR * Sum(pool, s).size
    decreases s
  {
    if s != {} {
      var x :| x in s;
      SumRemove(pool, s, x);
      WeightWithinSize(pool, s - {x});
    }
  }

  datatype Stop = Continue | Exhausted | FeeTooLow | NearlyFull

  /** Cached totals of a package some of whose ancestors are already in the block. */
  datatype Modified = Modified(nSizeWithAncestors: nat, nModFeesWithAncestors: int, nSigOpCostWithAncestors: nat)

  type ModifiedMap = map<TxIter, Modified>

  // The resources still needed to include `x` once `done` is in the block.
  ghost function Remaining(pool: Pool, x: TxIter, done: set<TxIter>): Totals
    requires PoolValid(pool) && x in pool
  {
    Sum(pool, Package(pool, x) - done)
  }

  // The cached size and sigops of an entry are not below what is really needed,
  // and not above the full totals of the mempool.
  ghost predicate NotUnder(pool: Pool, x: TxIter, m: Modified, done: set<TxIter>)
    requires PoolValid(pool) && x in pool
  {
    && Remaining(pool, x, done).size <= m.nSizeWithAncestors <= pool[x].nSizeWithAncestors
    && Remaining(pool, x, done).sigOps <= m.nSigOpCostWithAncestors <= pool[x].nSigOpCostWithAncestors
  }

  // The entry has the full totals less those of some included ancestors.  The
  // first of them counts with its modified fee, all others with their own fee.
  ghost predicate Taken(pool: Pool, x: TxIter, m: Modified, done: set<TxIter>, taken: set<TxIter>, first: TxIter)
    requires PoolValid(pool) && x in pool
  {
    && taken <= pool[x].ancestors * done && first in taken
    && var t := Sum(pool, taken);
       && m.nSizeWithAncestors == pool[x].nSizeWithAncestors - t.size
       && m.nSigOpCostWithAncestors == pool[x].nSigOpCostWithAncestors - t.sigOps
       && m.nModFeesWithAncestors == pool[x].nModFeesWithAncestors - t.fee - pool[first].feeDelta
  }

  ghost predicate Tracked(pool: Pool, x: TxIter, m: Modified, done: set<TxIter>)
    requires PoolValid(pool) && x in pool
  {
    exists taken, first :: Taken(pool, x, m, done, taken, first)
  }

  ghost predicate NeverUnder(pool: Pool, mapModified: ModifiedMap, done: set<TxIter>)
    requires PoolValid(pool)
  {
    forall x | x in mapModified :: x in pool && NotUnder(pool, x, mapModified[x], done) && Tracked(pool, x, mapModified[x], done)
  }

  function FromEntry(e: Entry): Modified {
    Modified(e.nSizeWithAncestors, e.nModFeesWithAncestors, e.nSigOpCostWithAncestors)
  }

  // The totals cached in the mempool never under-estimate, whatever is done.
  lemma PoolTotalsNotUnder(pool: Pool, x: TxIter, done: set<TxIter>)
    requires PoolValid(pool) && x in pool
    ensures NotUnder(pool, x, FromEntry(pool[x]), done)
  {
    assert TotalsExact(pool, x);
    SumMonotone(pool, Package(pool, x) - done, Package(pool, x));
  }

  // Including one ancestor frees exactly its own resources.
  lemma IncludeOne(pool: Pool, x: TxIter, done: set<TxIter>, it: TxIter)
    requires PoolValid(pool) && x in pool && it in Package(pool, x) - done
    ensures Remaining(pool, x, done) == pool[it].Own().Plus(Remaining(pool, x, done + {it}))
  {
    SumRemove(pool, Package(pool, x) - done, it);
    assert Package(pool, x) - done - {it} == Package(pool, x) - (done + {it});
  }

  // Forgetting inclusions only makes an entry's estimate safer.
  lemma IncludeOneFromFull(pool: Pool, x: TxIter, done: set<TxIter>, it: TxIter)
    requires PoolValid(pool) && x in pool && it in Package(pool, x)
    ensures pool[it].TxSize() + Remaining(pool, x, done + {it}).size <= pool[x].nSizeWithAncestors
    ensures pool[it].sigOpCost + Remaining(pool, x, done + {it}).sigOps <= pool[x].nSigOpCostWithAncestors
  {
    assert TotalsExact(pool, x);
    SumRemove(pool, Package(pool, x), it);
    SumMonotone(pool, Package(pool, x) - (done + {it}), Package(pool, x) - {it});
  }

  lemma IncludeUnrelated(pool: Pool, x: TxIter, done: set<TxIter>, it: TxIter)
    requires PoolValid(pool) && x in pool && it !in Package(pool, x)
    ensures Remaining(pool, x, done + {it}) == Remaining(pool, x, done)
  {
    assert Package(pool, x) - (done + {it}) == Package(pool, x) - done;
  }

  function Descendants(pool: Pool, it: TxIter): set<TxIter> {
    set x | x in pool && it in Package(pool, x)
  }

  // The totals of `d` after its ancestor `it` went into the block: taken from
  // the modified entry if there is one, and from the full mempool totals if not.
  ghost predicate CanCharge(pool: Pool, m: ModifiedMap, it: TxIter, d: TxIter) {
    && it in pool && d in pool
    && var e := if d in m then m[d] else FromEntry(pool[d]);
       pool[it].TxSize() <= e.nSizeWithAncestors && pool[it].sigOpCost <= e.nSigOpCostWithAncestors
  }

  function Charged(pool: Pool, m: ModifiedMap, it: TxIter, d: TxIter): Modified
    requires CanCharge(pool, m, it, d)
  {
    if d in m then
      Modified(m[d].nSizeWithAncestors - pool[it].TxSize(),
               m[d].nModFeesWithAncestors - pool[it].nFee,
               m[d].nSigOpCostWithAncestors - pool[it].sigOpCost)
    else
      Modified(pool[d].nSizeWithAncestors - pool[it].TxSize(),
               pool[d].nModFeesWithAncestors - pool[it].ModifiedFee(),
               pool[d].nSigOpCostWithAncestors - pool[it].sigOpCost)
  }

  // Charging never goes below zero and never under-estimates what remains.
  lemma ChargeNotUnder(pool: Pool, m: ModifiedMap, it: TxIter, d: TxIter, done: set<TxIter>)
    requires PoolValid(pool) && d in pool && it in pool[d].ancestors && it !in done
    requires d in m ==> NotUnder(pool, d, m[d], done)
    ensures CanCharge(pool, m, it, d) && NotUnder(pool, d, Charged(pool, m, it, d), done + {it})
  {
    if d in m {
      IncludeOne(pool, d, done, it);
    } else {
      IncludeOneFromFull(pool, d, done, it);
    }
  }

  // Charging takes one more ancestor.
  lemma ChargeTakes(pool: Pool, m: ModifiedMap, it: TxIter, d: TxIter, done: set<TxIter>)
    requires PoolValid(pool) && d in pool && it in pool[d].ancestors && it !in done && CanCharge(pool, m, it, d)
    requires d in m ==> Tracked(pool, d, m[d], done)
    ensures Tracked(pool, d, Charged(pool, m, it, d), done + {it})
  {
    assert pool[d].ancestors <= pool.Keys;
    hide Sum, LinksValid;
    if d in m {
      var taken, first :| Taken(pool, d, m[d], done, taken, first);
      SumAdd(pool, taken, it);
      assert Taken(pool, d, Charged(pool, m, it, d), done + {it}, taken + {it}, first);
    } else {
      SumAdd(pool, {}, it);
      SumEmpty(pool, {});
      assert {} + {it} == {it};
      assert Taken(pool, d, Charged(pool, m, it, d), done + {it}, {it}, it);
    }
  }

  lemma {:induction false} SumSplit(pool: Pool, s: set<TxIter>, t: set<TxIter>)
    requires s <= t <= pool.Keys
    ensures Sum(pool, t) == Sum(pool, s).Plus(Sum(pool, t - s))
    decreases s
  {
    hide Sum;
    if s == {} {
      SumEmpty(pool, s);
      assert t - s == t;
    } else {
      var x :| x in s;
      SumSplit(pool, s - {x}, t - {x});
      SumRemove(pool, s, x);
      SumRemove(pool, t, x);
      assert t - {x} - (s - {x}) == t - s;
    }
  }

  // The included ancestors that an entry has not taken: those included before it
  // failed, was erased, and started again from the full totals.
  ghost function Missed(pool: Pool, x: TxIter, done: set<TxIter>, taken: set<TxIter>): Totals
    requires PoolValid(pool) && x in pool
  {
    Sum(pool, pool[x].ancestors * done - taken)
  }

  // By how much the cached totals of an entry exceed what is left to include.
  lemma CachedExcess(pool: Pool, x: TxIter, m: Modified, done: set<TxIter>, taken: set<TxIter>, first: TxIter)
    requires PoolValid(pool) && x in pool && x !in done && Taken(pool, x, m, done, taken, first)
    ensures taken - {first} <= pool.Keys
    ensures m.nSizeWithAncestors == Remaining(pool, x, done).size + Missed(pool, x, done, taken).size
    ensures m.nSigOpCostWithAncestors == Remaining(pool, x, done).sigOps + Missed(pool, x, done, taken).sigOps
    ensures m.nModFeesWithAncestors == Remaining(pool, x, done).ModifiedFee() + Missed(pool, x, done, taken).ModifiedFee()
                                       + Sum(pool, taken - {first}).feeDelta
  {
    assert TotalsExact(pool, x);
    hide Sum;
    var included := pool[x].ancestors * done;
    SumSplit(pool, included, Package(pool, x));
    SumSplit(pool, taken, included);
    SumRemove(pool, taken, first);
    assert Package(pool, x) - included == Package(pool, x) - done;
  }

  // The cached fee of an entry is the modified fee of what is left of its
  // package if and only if the fee deltas of the ancestors taken after the
  // first and the fees of the missed ones cancel.
  lemma FeeExact(pool: Pool, x: TxIter, m: Modified, done: set<TxIter>, taken: set<TxIter>, first: TxIter)
    requires PoolValid(pool) && x in pool && x !in done && Taken(pool, x, m, done, taken, first)
    ensures taken - {first} <= pool.Keys
    ensures m.nModFeesWithAncestors == Remaining(pool, x, done).ModifiedFee() <==>
            Sum(pool, taken - {first}).feeDelta + Sum(pool, pool[x].ancestors * done - taken).ModifiedFee() == 0
  {
    hide Sum;
    CachedExcess(pool, x, m, done, taken, first);
  }

  // Two ancestors that are included one after the other: the second one is
  // subtracted without its delta, which the cached fee keeps.
  lemma TwoAncestors(pool: Pool, a: TxIter, b: TxIter, x: TxIter)
    requires PoolValid(pool) && x in pool && a != b && pool[x].ancestors == {a, b}
    ensures CanCharge(pool, map[], a, x)
    ensures var once := map[x := Charged(pool, map[], a, x)];
            && CanCharge(pool, once, b, x)
            && Charged(pool, once, b, x).nModFeesWithAncestors == pool[x].ModifiedFee() + pool[b].feeDelta
  {
    assert LinksValid(pool) && TotalsExact(pool, x) && a in pool && b in pool;
    ChargeNotUnder(pool, map[], a, x, {});
    var once := map[x := Charged(pool, map[], a, x)];
    ChargeNotUnder(pool, once, b, x, {} + {a});
    hide Sum, LinksValid;
    SumRemove(pool, Package(pool, x), a);
    SumRemove(pool, Package(pool, x) - {a}, b);
    SumRemove(pool, {x}, x);
    SumEmpty(pool, {x} - {x});
    assert Package(pool, x) - {a} - {b} == {x};
  }

  // An entry that failed after its ancestor `a` was included, and started again
  // when `c` was: everything of `a` is still in the cached totals, whatever the
  // fee deltas are.
  lemma StartedAgain(pool: Pool, a: TxIter, c: TxIter, x: TxIter)
    requires PoolValid(pool) && x in pool && a != c && pool[x].ancestors == {a, c}
    ensures CanCharge(pool, map[], c, x)
    ensures var again := Charged(pool, map[], c, x);
            && Taken(pool, x, again, {a, c}, {c}, c)
            && again.nSizeWithAncestors == Remaining(pool, x, {a, c}).size + pool[a].TxSize()
            && again.nModFeesWithAncestors == Remaining(pool, x, {a, c}).ModifiedFee() + pool[a].ModifiedFee()
  {
    assert LinksValid(pool) && a in pool && c in pool && x !in {a, c};
    ChargeNotUnder(pool, map[], c, x, {a});
    var again := Charged(pool, map[], c, x);
    hide Sum, LinksValid;
    SumAdd(pool, {}, c);
    SumEmpty(pool, {});
    assert {} + {c} == {c};
    CachedExcess(pool, x, again, {a, c}, {c}, c);
    assert pool[x].ancestors * {a, c} - {c} == {a} && {c} - {c} == {};
    SumAdd(pool, {}, a);
    assert {} + {a} == {a};
  }

  lemma StillTracked(pool: Pool, x: TxIter, m: Modified, done: set<TxIter>, it: TxIter)
    requires PoolValid(pool) && x in pool && Tracked(pool, x, m, done)
    ensures Tracked(pool, x, m, done + {it})
  {
    hide Sum, PoolValid;
    var taken, first :| Taken(pool, x, m, done, taken, first);
    assert Taken(pool, x, m, done + {it}, taken, first);
  }

  // Between the updates for one included transaction: descendants in `todo`
  // are still measured without it, all other entries with it.
  ghost predicate UpdatePending(pool: Pool, m: ModifiedMap, done: set<TxIter>, it: TxIter, todo: set<TxIter>)
    requires PoolValid(pool)
  {
    forall x | x in m ::
      var included := if x in todo then done else done + {it};
      x in pool && NotUnder(pool, x, m[x], included) && Tracked(pool, x, m[x], included)
  }

  // Every transaction outside the block with an ancestor in `added` has a
  // modified entry.
  ghost predicate Covered(pool: Pool, m: ModifiedMap, inBlock: set<TxIter>, added: set<TxIter>) {
    forall x | x in pool && x !in inBlock && x !in m :: pool[x].ancestors !! added
  }

  lemma UpdateStarts(pool: Pool, m: ModifiedMap, done: set<TxIter>, it: TxIter)
    requires PoolValid(pool) && NeverUnder(pool, m, done)
    ensures UpdatePending(pool, m, done, it, Descendants(pool, it))
  {
    forall x | x in m && x !in Descendants(pool, it)
      ensures NotUnder(pool, x, m[x], done + {it}) && Tracked(pool, x, m[x], done + {it})
    {
      IncludeUnrelated(pool, x, done, it);
      StillTracked(pool, x, m[x], done, it);
    }
  }

  function Elements(s: seq<TxIter>): set<TxIter> {
    set x | x in s
  }

  lemma ElementsAppend(s: seq<TxIter>, x: TxIter)
    ensures Elements(s + [x]) == Elements(s) + {x}
  {
  }

  lemma ElementsTail(s: seq<TxIter>, i: nat)
    requires i < |s| && Distinct(s)
    ensures s[i] in Elements(s[i..]) && Elements(s[i + 1..]) == Elements(s[i..]) - {s[i]}
  {
    assert s[i..] == [s[i]] + s[i + 1..];
  }

  // Every transaction comes after all of its in-pool ancestors.
  ghost predicate AncestorsFirst(pool: Pool, s: seq<TxIter>) {
    forall i | 0 <= i < |s| :: s[i] in pool && pool[s[i]].ancestors <= Elements(s[..i])
  }

  lemma AncestorsFirstIsClosed(pool: Pool, s: seq<TxIter>)
    requires AncestorsFirst(pool, s)
    ensures AncestorClosed(pool, Elements(s))
  {
    forall x | x in Elements(s)
      ensures x in pool && pool[x].ancestors <= Elements(s)
    {
      var i :| 0 <= i < |s| && s[i] == x;
      assert forall y | y in s[..i] :: y in s;
    }
  }

  ghost predicate AncestorClosed(pool: Pool, s: set<TxIter>) {
    forall x | x in s :: x in pool && pool[x].ancestors <= s
  }

  predicate SortedByCount(pool: Pool, s: seq<TxIter>) {
    && (forall i | 0 <= i < |s| :: s[i] in pool)
    && (forall i, j | 0 <= i < j < |s| :: pool[s[i]].CountWithAncestors() <= pool[s[j]].CountWithAncestors())
  }

  predicate IsLeastCount(pool: Pool, s: set<TxIter>, x: TxIter)
    requires s <= pool.Keys
  {
    x in s && forall y | y in s :: pool[x].CountWithAncestors() <= pool[y].CountWithAncestors()
  }

  lemma {:induction false} SmallestCount(pool: Pool, s: set<TxIter>) returns (least: TxIter)
    requires s != {} && s <= pool.Keys
    ensures IsLeastCount(pool, s, least)
    decreases s
  {
    least :| least in s;
    if y :| y in s && pool[y].CountWithAncestors() < pool[least].CountWithAncestors() {
      var rest := s - {least};
      assert y in rest;
      least := SmallestCount(pool, rest);
    }
  }

  // An ancestor always has the smaller ancestor count.
  lemma AncestorCountsLess(pool: Pool, x: TxIter, y: TxIter)
    requires LinksValid(pool) && x in pool && y in pool[x].ancestors
    ensures pool[y].CountWithAncestors() < pool[x].CountWithAncestors() == |Package(pool, x)|
  {
    assert pool[y].ancestors + {y} <= pool[x].ancestors;
    SubsetSize(pool[y].ancestors + {y}, pool[x].ancestors);
  }

  // In a package sorted by ancestor count, an ancestor stands before `sorted[k]`
  // unless it is in the block already.
  lemma SortedBefore(pool: Pool, vtx: seq<TxIter>, sorted: seq<TxIter>, iter: TxIter, k: nat, y: TxIter)
    requires LinksValid(pool) && iter in pool && SortedByCount(pool, sorted)
    requires Elements(sorted) == Package(pool, iter) - Elements(vtx)
    requires k < |sorted| && y in pool[sorted[k]].ancestors && y !in vtx
    ensures y in sorted[..k]
  {
    assert sorted[k] in Elements(sorted);
    assert y in Package(pool, iter);
    assert y in Elements(sorted);
    var j :| 0 <= j < |sorted| && sorted[j] == y;
    AncestorCountsLess(pool, sorted[k], y);
    assert sorted[..k][j] == y;
  }

  // Appending the sorted rest of a package keeps ancestors first.
  lemma PackageKeepsOrder(pool: Pool, vtx: seq<TxIter>, sorted: seq<TxIter>, iter: TxIter)
    requires LinksValid(pool) && AncestorsFirst(pool, vtx) && iter in pool
    requires SortedByCount(pool, sorted)
    requires Elements(sorted) == Package(pool, iter) - Elements(vtx)
    ensures AncestorsFirst(pool, vtx + sorted)
  {
    var both := vtx + sorted;
    forall i | 0 <= i < |both|
      ensures both[i] in pool && pool[both[i]].ancestors <= Elements(both[..i])
    {
      if i < |vtx| {
        assert both[..i] == vtx[..i];
      } else {
        var k := i - |vtx|;
        assert both[..i] == vtx + sorted[..k];
        forall y | y in pool[sorted[k]].ancestors && y !in vtx
          ensures y in sorted[..k]
        {
          SortedBefore(pool, vtx, sorted, iter, k, y);
        }
      }
    }
  }

  class BlockAssembler {
    const pool: Pool
    const order: seq<TxIter>                      // mapTx by ancestor score
    const nBlockMaxWeight: nat
    const nBlockMaxSize: nat
    const fNeedSizeAccounting: bool
    const minFee: nat -> int                      // blockMinFeeRate.GetFee
    const scoresHigher: (Modified, Modified) -> bool  // CompareModifiedEntry

    var inBlock: set<TxIter>
    var vtx: seq<TxIter>                          // without the coinbase
    var nBlockWeight: nat
    var nBlockSize: nat
    var nBlockTx: nat
    var nBlockSigOpsCost: nat
    var nFees: int

    constructor (pool: Pool, order: seq<TxIter>, maxWeight: nat, maxSize: nat,
                 minFee: nat -> int, scoresHigher: (Modified, Modified) -> bool)
      requires PoolValid(pool) && Elements(order) == pool.Keys
      ensures this.pool == pool && this.order == order && this.minFee == minFee && this.scoresHigher == scoresHigher
      ensures nBlockMaxWeight == if maxWeight < 32_000 then 32_000 else if maxWeight > 31_968_000 then 31_968_000 else maxWeight
      ensures nBlockMaxSize == if maxSize < 1_000 then 1_000 else if maxSize > 31_999_000 then 31_999_000 else maxSize
      ensures fNeedSizeAccounting <==> maxSize < 31_999_000
      ensures Valid() && vtx == []
    {
      this.pool, this.order, this.minFee, this.scoresHigher := pool, order, minFee, scoresHigher;
      nBlockMaxWeight := Max(32000, Min(MAX_BLOCK_WEIGHT - 32000, maxWeight));
      nBlockMaxSize := Max(1000, Min(MAX_BLOCK_SERIALIZED_SIZE - 1000, maxSize));
      fNeedSizeAccounting := Max(1000, Min(MAX_BLOCK_SERIALIZED_SIZE - 1000, maxSize)) < MAX_BLOCK_SERIALIZED_SIZE - 1000;
      new;
      ResetBlock();
    }

    ghost predicate ConfigValid() {
      && LinksValid(pool) && PoolValid(pool) && Elements(order) == pool.Keys
      && 32000 <= nBlockMaxWeight <= MAX_BLOCK_WEIGHT - 32000
      && 1000 <= nBlockMaxSize <= MAX_BLOCK_SERIALIZED_SIZE - 1000
    }

    // The counters are exact, starting from the space reserved for the coinbase.
    ghost predicate CountersExact()
      requires inBlock <= pool.Keys
      reads this
    {
      var t := Sum(pool, inBlock);
      && nBlockWeight == 32000 + t.weight
      && nBlockSigOpsCost == 400 + t.sigOps
      && nBlockSize == 1000 + (if fNeedSizeAccounting then t.serialized else 0)
      && nFees == t.fee
      && nBlockTx == |vtx|
    }

    ghost predicate WithinLimits()
      reads this
    {
      && nBlockWeight <= nBlockMaxWeight
      && nBlockSigOpsCost < MAX_BLOCK_SIGOPS_COST
      && nBlockSize <= nBlockMaxSize
    }

    // The part of the block state that holds between any two transactions.
    ghost predicate BlockConsistent()
      reads this
    {
      && inBlock == Elements(vtx) && inBlock <= pool.Keys && Distinct(vtx)
      && CountersExact()
      && (forall x | x in inBlock :: pool[x].isEligible)
    }

    ghost predicate Valid()
      reads this
    {
      && ConfigValid() && inBlock <= pool.Keys
      && BlockConsistent() && AncestorsFirst(pool, vtx) && WithinLimits()
    }

    // Why a transaction may be left out of a block that has used up `weight`,
    // `sigOps` and `size`: its full package would not fit, or holds a
    // transaction that must not be mined.
    ghost predicate Unfit(weight: nat, sigOps: nat, size: nat, x: TxIter)
      requires ConfigValid() && x in pool
    {
      || nBlockMaxWeight <= weight + WITNESS_SCALE_FACTOR * Sum(pool, Package(pool, x)).size
      || MAX_BLOCK_SIGOPS_COST <= sigOps + Sum(pool, Package(pool, x)).sigOps
      || (exists y | y in Package(pool, x) :: !pool[y].isEligible)
      || (fNeedSizeAccounting && nBlockMaxSize <= size + Sum(pool, Package(pool, x)).serialized)
    }

    // As the block grows, what was unfit stays unfit.
    lemma UnfitIsFinal(weight: nat, sigOps: nat, size: nat, weight': nat, sigOps': nat, size': nat)
      requires ConfigValid() && weight <= weight' && sigOps <= sigOps' && size <= size'
      ensures forall x | x in pool && Unfit(weight, sigOps, size, x) :: Unfit(weight', sigOps', size', x)
    {
      hide PoolValid, Sum;
    }

    // A package that fails the size test even by its estimate is unfit.
    lemma FailedTestIsUnfit(x: TxIter, m: Modified)
      requires ConfigValid() && x in pool && NotUnder(pool, x, m, inBlock)
      requires !TestPackage(m.nSizeWithAncestors, m.nSigOpCostWithAncestors)
      ensures Unfit(nBlockWeight, nBlockSigOpsCost, nBlockSize, x)
    {
      assert TotalsExact(pool, x);
      hide PoolValid, Sum;
    }

    method ResetBlock()
      requires ConfigValid()
      modifies this
      ensures Valid() && vtx == []
    {
      inBlock, vtx := {}, [];
      nBlockSize, nBlockWeight, nBlockSigOpsCost := 1000, 32000, 400;
      nBlockTx, nFees := 0, 0;
    }

    // Only txs not already in the block.
    method OnlyUnconfirmed(testSet: set<TxIter>) returns (rest: set<TxIter>)
      ensures rest == testSet - inBlock
    {
      rest := testSet;
      var todo := testSet;
      while todo != {}
        invariant todo <= rest <= testSet
        invariant forall x | x in testSet && x !in todo :: x in rest <==> x !in inBlock
        decreases todo
      {
        var x :| x in todo;
        if x in inBlock {
          rest := rest - {x};
        }
        todo := todo - {x};
      }
    }

    predicate TestPackage(packageSize: nat, packageSigOpsCost: nat)
      reads this
    {
      if nBlockWeight + WITNESS_SCALE_FACTOR * packageSize >= nBlockMaxWeight then false
      else if nBlockSigOpsCost + packageSigOpsCost >= MAX_BLOCK_SIGOPS_COST then false
      else true
    }

    // The test passes exactly when weight and signature operations both stay
    // below their limits.
    lemma TestPackageExact(packageSize: nat, packageSigOpsCost: nat)
      ensures TestPackage(packageSize, packageSigOpsCost) <==>
              nBlockWeight + 32 * packageSize < nBlockMaxWeight && nBlockSigOpsCost + packageSigOpsCost < 640_000
    {
    }

    // True exactly when every transaction is eligible and, if sizes are
    // accounted for, the whole package still fits.
    method TestPackageTransactions(package: set<TxIter>) returns (ok: bool)
      requires package <= pool.Keys && package != {}
      ensures ok <==> && (forall x | x in package :: pool[x].isEligible)
                      && (fNeedSizeAccounting ==> nBlockSize + Sum(pool, package).serialized < nBlockMaxSize)
    {
      var nPotentialBlockSize := nBlockSize;
      var todo := package;
      while todo != {}
        invariant todo <= package
        invariant forall x | x in package && x !in todo :: pool[x].isEligible
        invariant fNeedSizeAccounting ==>
                    nPotentialBlockSize + Sum(pool, todo).serialized == nBlockSize + Sum(pool, package).serialized
        invariant fNeedSizeAccounting && todo != package ==> nPotentialBlockSize < nBlockMaxSize
        decreases todo
      {
        var x :| x in todo;
        if !pool[x].isEligible {
          return false;
        }
        SumRemove(pool, todo, x);
        if fNeedSizeAccounting {
          if nPotentialBlockSize + pool[x].nTxSerialized >= nBlockMaxSize {
            return false;
          }
          nPotentialBlockSize := nPotentialBlockSize + pool[x].nTxSerialized;
        }
        todo := todo - {x};
      }
      return true;
    }

    method AddToBlock(x: TxIter)
      requires BlockConsistent() && x in pool && x !in inBlock && pool[x].isEligible
      modifies this
      ensures BlockConsistent()
      ensures vtx == old(vtx) + [x] && inBlock == old(inBlock) + {x}
      ensures nBlockWeight == old(nBlockWeight) + pool[x].nTxWeight
      ensures nBlockSigOpsCost == old(nBlockSigOpsCost) + pool[x].sigOpCost
      ensures nBlockSize == old(nBlockSize) + (if fNeedSizeAccounting then pool[x].nTxSerialized else 0)
    {
      vtx := vtx + [x];
      if fNeedSizeAccounting {
        nBlockSize := nBlockSize + pool[x].nTxSerialized;
      }
      nBlockWeight := nBlockWeight + pool[x].nTxWeight;
      nBlockTx := nBlockTx + 1;
      nBlockSigOpsCost := nBlockSigOpsCost + pool[x].sigOpCost;
      nFees := nFees + pool[x].nFee;
      inBlock := inBlock + {x};
      SumAdd(pool, old(inBlock), x);
      ElementsAppend(old(vtx), x);
    }

    // Stands for std::sort with CompareTxIterByAncestorCount; ties may fall
    // either way.
    method SortForBlock(package: set<TxIter>) returns (sorted: seq<TxIter>)
      requires package <= pool.Keys
      ensures SortedByCount(pool, sorted) && Distinct(sorted) && Elements(sorted) == package
    {
      sorted := [];
      var todo := package;
      while todo != {}
        invariant todo <= package && Elements(sorted) == package - todo
        invariant SortedByCount(pool, sorted) && Distinct(sorted)
        invariant forall i, y | 0 <= i < |sorted| && y in todo ::
                    pool[sorted[i]].CountWithAncestors() <= pool[y].CountWithAncestors()
        decreases todo
      {
        ghost var least := SmallestCount(pool, todo);
        var x :| x in todo && IsLeastCount(pool, todo, x);
        assert IsLeastCount(pool, todo, x);
        ElementsAppend(sorted, x);
        sorted := sorted + [x];
        todo := todo - {x};
      }
    }

    // Adds the out-of-block descendants of `alreadyAdded` to the modified
    // entries, charged for everything that is now in the block.
    method UpdatePackagesForAdded(alreadyAdded: set<TxIter>, mapModified: ModifiedMap)
      returns (m: ModifiedMap, nDescendantsUpdated: nat)
      requires ConfigValid() && alreadyAdded <= inBlock <= pool.Keys
      requires AncestorClosed(pool, inBlock - alreadyAdded)
      requires mapModified.Keys !! inBlock && NeverUnder(pool, mapModified, inBlock - alreadyAdded)
      ensures m.Keys !! inBlock && NeverUnder(pool, m, inBlock)
      ensures mapModified.Keys <= m.Keys && Covered(pool, m, inBlock, alreadyAdded)
    {
      hide PoolValid, NotUnder, Tracked;
      m, nDescendantsUpdated := mapModified, 0;
      var todo := alreadyAdded;
      while todo != {}
        invariant todo <= alreadyAdded
        invariant m.Keys !! inBlock && NeverUnder(pool, m, inBlock - todo)
        invariant mapModified.Keys <= m.Keys && Covered(pool, m, inBlock, alreadyAdded - todo)
        decreases todo
      {
        var it :| it in todo;
        var n;
        m, n := UpdateDescendants(alreadyAdded, m, it, inBlock - todo);
        assert inBlock - todo + {it} == inBlock - (todo - {it});
        nDescendantsUpdated := nDescendantsUpdated + n;
        todo := todo - {it};
      }
      assert inBlock - todo == inBlock && alreadyAdded - todo == alreadyAdded;
    }

    // The inner loop, for one included transaction.
    method UpdateDescendants(alreadyAdded: set<TxIter>, mapModified: ModifiedMap, it: TxIter, ghost done: set<TxIter>)
      returns (m: ModifiedMap, nDescendantsUpdated: nat)
      requires ConfigValid() && alreadyAdded <= inBlock <= pool.Keys && it in alreadyAdded && it !in done
      requires AncestorClosed(pool, inBlock - alreadyAdded)
      requires mapModified.Keys !! inBlock && NeverUnder(pool, mapModified, done)
      ensures m.Keys !! inBlock && NeverUnder(pool, m, done + {it})
      ensures mapModified.Keys <= m.Keys
      ensures forall x | x in pool && x !in inBlock && x !in m :: it !in pool[x].ancestors
    {
      hide PoolValid, NotUnder, Tracked;
      m, nDescendantsUpdated := mapModified, 0;
      var todo := Descendants(pool, it);
      UpdateStarts(pool, m, done, it);
      while todo != {}
        invariant todo <= Descendants(pool, it)
        invariant m.Keys !! inBlock && UpdatePending(pool, m, done, it, todo)
        invariant mapModified.Keys <= m.Keys
        invariant forall x | x in pool && x !in inBlock && x !in m && x !in todo :: it !in pool[x].ancestors
        decreases todo
      {
        var desc :| desc in todo;
        if desc !in alreadyAdded {
          assert it in pool[desc].ancestors && desc !in inBlock;
          ChargeNotUnder(pool, m, it, desc, done);
          ChargeTakes(pool, m, it, desc, done);
          m := m[desc := Charged(pool, m, it, desc)];
          nDescendantsUpdated := nDescendantsUpdated + 1;
        }
        todo := todo - {desc};
      }
    }

    predicate SkipMapTxEntry(it: TxIter, mapModified: ModifiedMap, failedTx: set<TxIter>)
      reads this
    {
      it in mapModified || it in inBlock || it in failedTx
    }

    // Adds sorted entries one by one; block and counters grow by their totals.
    method AddSorted(sortedEntries: seq<TxIter>, mapModified: ModifiedMap) returns (rest: ModifiedMap)
      requires BlockConsistent() && Distinct(sortedEntries)
      requires Elements(sortedEntries) <= pool.Keys && Elements(sortedEntries) !! inBlock
      requires forall x | x in sortedEntries :: pool[x].isEligible
      modifies this
      ensures BlockConsistent()
      ensures vtx == old(vtx) + sortedEntries && inBlock == old(inBlock) + Elements(sortedEntries)
      ensures rest == mapModified - Elements(sortedEntries)
      ensures var t := Sum(pool, Elements(sortedEntries));
              && nBlockWeight == old(nBlockWeight) + t.weight
              && nBlockSigOpsCost == old(nBlockSigOpsCost) + t.sigOps
              && nBlockSize == old(nBlockSize) + (if fNeedSizeAccounting then t.serialized else 0)
    {
      hide Sum, CountersExact;
      rest := mapModified;
      ghost var all := Elements(sortedEntries);
      ghost var t := Sum(pool, all);
      ghost var todo := all;
      assert sortedEntries[0..] == sortedEntries;
      for i := 0 to |sortedEntries|
        invariant BlockConsistent()
        invariant vtx == old(vtx) + sortedEntries[..i]
        invariant todo == Elements(sortedEntries[i..]) && todo <= all && todo !! inBlock
        invariant inBlock == old(inBlock) + (all - todo)
        invariant rest == mapModified - (all - todo)
        invariant nBlockWeight + Sum(pool, todo).weight == old(nBlockWeight) + t.weight
        invariant nBlockSigOpsCost + Sum(pool, todo).sigOps == old(nBlockSigOpsCost) + t.sigOps
        invariant nBlockSize + (if fNeedSizeAccounting then Sum(pool, todo).serialized else 0) ==
                    old(nBlockSize) + (if fNeedSizeAccounting then t.serialized else 0)
      {
        var x := sortedEntries[i];
        ElementsTail(sortedEntries, i);
        SumRemove(pool, todo, x);
        AddToBlock(x);
        rest := rest - {x};
        todo := todo - {x};
      }
      SumEmpty(pool, todo);
    }

    // Puts a package that passed both tests into the block.  A package whose
    // totals were not under-estimated can break none of the limits.
    method AddPackage(iter: TxIter, ancestors: set<TxIter>, mapModified: ModifiedMap, ghost m: Modified)
      returns (rest: ModifiedMap)
      requires Valid() && iter in pool && iter !in inBlock
      requires ancestors == Package(pool, iter) - inBlock
      requires NotUnder(pool, iter, m, inBlock) && TestPackage(m.nSizeWithAncestors, m.nSigOpCostWithAncestors)
      requires forall x | x in ancestors :: pool[x].isEligible
      requires fNeedSizeAccounting ==> nBlockSize + Sum(pool, ancestors).serialized < nBlockMaxSize
      modifies this
      ensures Valid()
      ensures inBlock == old(inBlock) + ancestors && old(vtx) <= vtx
      ensures nBlockWeight >= old(nBlockWeight) && nBlockSigOpsCost >= old(nBlockSigOpsCost) && nBlockSize >= old(nBlockSize)
      ensures rest == mapModified - ancestors
    {
      hide PoolValid, Sum, CountersExact;
      var sortedEntries := SortForBlock(ancestors);
      WeightWithinSize(pool, ancestors);
      PackageKeepsOrder(pool, vtx, sortedEntries, iter);
      rest := AddSorted(sortedEntries, mapModified);
    }

    // One selected package: into the block, out of the modified entries, and
    // its descendants charged.
    method IncludePackage(iter: TxIter, ancestors: set<TxIter>, mapModified: ModifiedMap, ghost m: Modified)
      returns (rest: ModifiedMap, nDescendantsUpdated: nat)
      requires Valid() && iter in pool && iter !in inBlock
      requires ancestors == Package(pool, iter) - inBlock
      requires NotUnder(pool, iter, m, inBlock) && TestPackage(m.nSizeWithAncestors, m.nSigOpCostWithAncestors)
      requires forall x | x in ancestors :: pool[x].isEligible
      requires fNeedSizeAccounting ==> nBlockSize + Sum(pool, ancestors).serialized < nBlockMaxSize
      requires mapModified.Keys !! inBlock && NeverUnder(pool, mapModified, inBlock)
      modifies this
      ensures Valid()
      ensures inBlock == old(inBlock) + ancestors && old(vtx) <= vtx
      ensures nBlockWeight >= old(nBlockWeight) && nBlockSigOpsCost >= old(nBlockSigOpsCost) && nBlockSize >= old(nBlockSize)
      ensures rest.Keys !! inBlock && NeverUnder(pool, rest, inBlock)
      ensures mapModified.Keys <= rest.Keys + inBlock && Covered(pool, rest, inBlock, ancestors)
    {
      hide PoolValid, Sum, CountersExact, NotUnder, Tracked, AncestorsFirst, LinksValid;
      ghost var before := inBlock;
      AncestorsFirstIsClosed(pool, vtx);
      rest := AddPackage(iter, ancestors, mapModified, m);
      assert inBlock - ancestors == before;
      rest, nDescendantsUpdated := UpdatePackagesForAdded(ancestors, rest);
    }

    // Tries to include the package of `iter`.
    method TryPackage(iter: TxIter, mapModified: ModifiedMap, package: Modified)
      returns (included: bool, rest: ModifiedMap, nDescendantsUpdated: nat)
      requires Valid() && iter in pool && iter !in inBlock
      requires NotUnder(pool, iter, package, inBlock)
      requires TestPackage(package.nSizeWithAncestors, package.nSigOpCostWithAncestors)
      requires mapModified.Keys !! inBlock && NeverUnder(pool, mapModified, inBlock)
      modifies this
      ensures Valid() && old(vtx) <= vtx && old(inBlock) <= inBlock
      ensures if included then iter in inBlock && TxsLeft() < old(TxsLeft())
              else Unfit(nBlockWeight, nBlockSigOpsCost, nBlockSize, iter) && unchanged(this) && rest == mapModified
      ensures nBlockWeight >= old(nBlockWeight) && nBlockSigOpsCost >= old(nBlockSigOpsCost) && nBlockSize >= old(nBlockSize)
      ensures rest.Keys !! inBlock && NeverUnder(pool, rest, inBlock) && mapModified.Keys <= rest.Keys + inBlock
    {
      hide PoolValid, Sum, CountersExact, NotUnder, Tracked, AncestorsFirst, BlockConsistent;
      rest, nDescendantsUpdated := mapModified, 0;
      var ancestors := OnlyUnconfirmed(pool[iter].ancestors);
      ancestors := ancestors + {iter};
      included := TestPackageTransactions(ancestors);
      if included {
        rest, nDescendantsUpdated := IncludePackage(iter, ancestors, mapModified, package);
        SubsetSize(pool.Keys - inBlock, pool.Keys - old(inBlock) - {iter});
      } else {
        SumMonotone(pool, ancestors, Package(pool, iter));
      }
    }

    // The number of transactions not in the block, and of entries still waiting.
    ghost function TxsLeft(): nat
      reads this
    {
      |pool.Keys - inBlock|
    }

    function EntriesLeft(mi: nat, mapModified: ModifiedMap): nat
      requires mi <= |order|
    {
      |order| - mi + |mapModified|
    }

    // The state of the selection loop.
    ghost predicate Selecting(mapModified: ModifiedMap, failedTx: set<TxIter>)
      reads this
    {
      && Valid() && ConfigValid() && (forall i | 0 <= i < |order| :: order[i] in pool)
      && mapModified.Keys !! inBlock && mapModified.Keys <= pool.Keys && NeverUnder(pool, mapModified, inBlock)
      && (forall x | x in failedTx :: x in pool && Unfit(nBlockWeight, nBlockSigOpsCost, nBlockSize, x))
    }

    // `x` is in the block, still waiting, or left out for a reason.
    ghost predicate Settled(mapModified: ModifiedMap, x: TxIter)
      requires ConfigValid() && x in pool
      reads this
    {
      x in inBlock || x in mapModified || Unfit(nBlockWeight, nBlockSigOpsCost, nBlockSize, x)
    }

    lemma SkippedIsSettled(mapModified: ModifiedMap, failedTx: set<TxIter>, x: TxIter)
      requires Selecting(mapModified, failedTx) && x in pool
      ensures SkipMapTxEntry(x, mapModified, failedTx) ==> Settled(mapModified, x)
    {
      hide PoolValid, Sum, Unfit, Valid;
    }

    // A transaction outside the block whose fee, with all its ancestors or
    // without some that are in the block, is too low for its size.
    ghost predicate FeeRefused(x: TxIter, m: Modified)
      requires ConfigValid()
      reads this
    {
      && x in pool && x !in inBlock && NotUnder(pool, x, m, inBlock)
      && (m == FromEntry(pool[x]) || Tracked(pool, x, m, inBlock))
      && m.nModFeesWithAncestors < minFee(m.nSizeWithAncestors)
    }

    // One candidate.  Either the loop stops, or the candidate is settled and
    // either the block has grown or one candidate fewer is left.
    method Consider(iter: TxIter, fUsingModified: bool, mapModified: ModifiedMap, failedTx: set<TxIter>, nFailed: nat)
      returns (stop: Stop, m: ModifiedMap, failed: set<TxIter>, nConsecutiveFailed: nat, nDescendantsUpdated: nat)
      requires Selecting(mapModified, failedTx) && iter in pool && iter !in inBlock
      requires fUsingModified ==> iter in mapModified
      modifies this
      ensures Selecting(m, failed) && old(vtx) <= vtx
      ensures forall x | x in pool && old(Settled(mapModified, x)) :: Settled(m, x)
      ensures stop == Continue ==>
                && Settled(m, iter)
                && (|| TxsLeft() < old(TxsLeft())
                    || (TxsLeft() == old(TxsLeft()) && m == if fUsingModified then mapModified - {iter} else mapModified))
      ensures stop == FeeTooLow ==> exists pkg :: FeeRefused(iter, pkg)
      ensures stop == NearlyFull ==> nConsecutiveFailed > 1_000 && nBlockWeight > nBlockMaxWeight - 32_000
      ensures stop == Continue && nConsecutiveFailed > nFailed ==> nConsecutiveFailed <= 1_000 || nBlockWeight <= nBlockMaxWeight - 32_000
      ensures stop != Exhausted && nConsecutiveFailed <= nFailed + 1 && (TxsLeft() < old(TxsLeft()) ==> nConsecutiveFailed == 0)
    {
      hide PoolValid, Sum, CountersExact, NotUnder, Tracked, AncestorsFirst, LinksValid, BlockConsistent, TestPackage, Unfit, WithinLimits;
      m, failed, nConsecutiveFailed, nDescendantsUpdated := mapModified, failedTx, nFailed, 0;
      PoolTotalsNotUnder(pool, iter, inBlock);
      var package := if fUsingModified then mapModified[iter] else FromEntry(pool[iter]);
      if package.nModFeesWithAncestors < minFee(package.nSizeWithAncestors) {
        assert FeeRefused(iter, package);
        stop := FeeTooLow;
        return;
      }
      stop := Continue;
      if TestPackage(package.nSizeWithAncestors, package.nSigOpCostWithAncestors) {
        ghost var weight, sigOps, size := nBlockWeight, nBlockSigOpsCost, nBlockSize;
        var included;
        included, m, nDescendantsUpdated := TryPackage(iter, mapModified, package);
        UnfitIsFinal(weight, sigOps, size, nBlockWeight, nBlockSigOpsCost, nBlockSize);
        if included {
          nConsecutiveFailed := 0;
          return;
        }
      } else {
        FailedTestIsUnfit(iter, package);
        nConsecutiveFailed := nConsecutiveFailed + 1;
        if nConsecutiveFailed > MAX_CONSECUTIVE_FAILURES && nBlockWeight > nBlockMaxWeight - 32000 {
          stop := NearlyFull;
        }
      }
      if fUsingModified {
        m, failed := m - {iter}, failed + {iter};
      }
    }

    // The next mapTx entry, or a modified entry that scores higher.
    method NextCandidate(mi: nat, mapModified: ModifiedMap, ghost failedTx: set<TxIter>)
      returns (iter: TxIter, fUsingModified: bool)
      requires Selecting(mapModified, failedTx)
      requires mi < |order| || (mi == |order| && mapModified != map[])
      requires mi < |order| ==> !SkipMapTxEntry(order[mi], mapModified, failedTx)
      ensures iter in pool && iter !in inBlock
      ensures if fUsingModified then iter in mapModified else mi < |order| && iter == order[mi]
    {
      hide Valid, ConfigValid, NeverUnder, Unfit;
      fUsingModified := false;
      if mi == |order| {
        iter :| iter in mapModified;
        fUsingModified := true;
      } else {
        iter := order[mi];
        if mapModified != map[] {
          var modit :| modit in mapModified;
          if scoresHigher(mapModified[modit], FromEntry(pool[iter])) {
            iter := modit;
            fUsingModified := true;
          }
        }
      }
    }

    // The modified entries that the loop starts with.
    method StartSelecting() returns (m: ModifiedMap)
      requires Valid()
      ensures Selecting(m, {})
    {
      hide PoolValid, Sum, CountersExact, NotUnder, Tracked, AncestorsFirst, LinksValid, BlockConsistent, WithinLimits;
      var n;
      m, n := UpdatePackagesForAdded(inBlock, map[]);
      forall i | 0 <= i < |order|
        ensures order[i] in pool
      {
        assert order[i] in Elements(order);
      }
    }

    // When nothing is waiting any more, everything left out is unfit.
    lemma AllSettled(failedTx: set<TxIter>)
      requires Selecting(map[], failedTx)
      requires forall i | 0 <= i < |order| :: Settled(map[], order[i])
      ensures forall x | x in pool && x !in inBlock :: Unfit(nBlockWeight, nBlockSigOpsCost, nBlockSize, x)
    {
      hide PoolValid, Sum, CountersExact, NotUnder, Tracked, AncestorsFirst, LinksValid, BlockConsistent, Unfit, WithinLimits;
      forall x | x in pool && x !in inBlock
        ensures Unfit(nBlockWeight, nBlockSigOpsCost, nBlockSize, x)
      {
        assert x in Elements(order);
        var i :| 0 <= i < |order| && order[i] == x;
      }
    }

    // The first `mi` entries of mapTx are settled.
    ghost predicate SettledUpTo(mapModified: ModifiedMap, mi: nat)
      requires ConfigValid() && mi <= |order|
      reads this
    {
      forall i | 0 <= i < mi :: order[i] in pool && Settled(mapModified, order[i])
    }

    // One turn of the selection loop, on an entry that is not skipped.
    method Evaluate(mi: nat, mapModified: ModifiedMap, failedTx: set<TxIter>, nFailed: nat)
      returns (stop: Stop, mi': nat, m: ModifiedMap, failed: set<TxIter>, nConsecutiveFailed: nat, nDescendantsUpdated: nat)
      requires Selecting(mapModified, failedTx)
      requires mi < |order| || (mi == |order| && mapModified != map[])
      requires mi < |order| ==> !SkipMapTxEntry(order[mi], mapModified, failedTx)
      requires SettledUpTo(mapModified, mi)
      modifies this
      ensures Selecting(m, failed) && old(vtx) <= vtx
      ensures mi <= mi' <= |order| && SettledUpTo(m, mi')
      ensures stop == Continue ==>
                || TxsLeft() < old(TxsLeft())
                || (TxsLeft() == old(TxsLeft()) && EntriesLeft(mi', m) < EntriesLeft(mi, mapModified))
      ensures stop == FeeTooLow ==> exists x, pkg :: FeeRefused(x, pkg)
      ensures stop == NearlyFull ==> nConsecutiveFailed > 1_000 && nBlockWeight > nBlockMaxWeight - 32_000
      ensures stop != Exhausted && nConsecutiveFailed <= nFailed + 1 && (TxsLeft() < old(TxsLeft()) ==> nConsecutiveFailed == 0)
    {
      hide Valid, NeverUnder, ConfigValid, Unfit, FeeRefused, Settled, TxsLeft;
      var iter, fUsingModified := NextCandidate(mi, mapModified, failedTx);
      stop, m, failed, nConsecutiveFailed, nDescendantsUpdated :=
        Consider(iter, fUsingModified, mapModified, failedTx, nFailed);
      mi' := if stop == Continue && !fUsingModified then mi + 1 else mi;
    }

    // What the limits, the counters and the order of a valid block are.
    lemma BlockIsSound()
      requires Valid()
      ensures inBlock <= pool.Keys && inBlock == (set x | x in vtx) && forall i, j | 0 <= i < j < |vtx| :: vtx[i] != vtx[j]
      ensures forall i, y | 0 <= i < |vtx| && y in pool[vtx[i]].ancestors :: y in vtx[..i]
      ensures nBlockWeight == 32_000 + Sum(pool, inBlock).weight <= nBlockMaxWeight <= 31_968_000
      ensures nBlockSigOpsCost == 400 + Sum(pool, inBlock).sigOps < 640_000
      ensures fNeedSizeAccounting ==> nBlockSize == 1_000 + Sum(pool, inBlock).serialized <= nBlockMaxSize
      ensures nBlockTx == |vtx| && nFees == Sum(pool, inBlock).fee
      ensures forall x | x in vtx :: pool[x].isEligible
    {
      hide PoolValid, Sum, LinksValid;
      forall i, y | 0 <= i < |vtx| && y in pool[vtx[i]].ancestors
        ensures y in vtx[..i]
      {
        assert y in Elements(vtx[..i]);
      }
    }

    // Each reason to leave a transaction out, on the resources of its package.
    lemma UnfitIs(x: TxIter)
      requires ConfigValid() && x in pool && Unfit(nBlockWeight, nBlockSigOpsCost, nBlockSize, x)
      ensures Package(pool, x) <= pool.Keys
      ensures var t := Sum(pool, Package(pool, x));
              || nBlockMaxWeight <= nBlockWeight + 32 * t.size
              || 640_000 <= nBlockSigOpsCost + t.sigOps
              || (exists y | y in Package(pool, x) :: !pool[y].isEligible)
              || (fNeedSizeAccounting && nBlockMaxSize <= nBlockSize + t.serialized)
    {
      hide PoolValid, Sum;
    }

    lemma AllExplained()
      requires ConfigValid() && forall x | x in pool && x !in inBlock :: Unfit(nBlockWeight, nBlockSigOpsCost, nBlockSize, x)
      ensures forall x | x in pool && x !in inBlock ::
                && Package(pool, x) <= pool.Keys
                && var t := Sum(pool, Package(pool, x));
                   || nBlockMaxWeight <= nBlockWeight + 32 * t.size
                   || 640_000 <= nBlockSigOpsCost + t.sigOps
                   || (exists y | y in Package(pool, x) :: !pool[y].isEligible)
                   || (fNeedSizeAccounting && nBlockMaxSize <= nBlockSize + t.serialized)
    {
      hide Unfit, Sum, PoolValid;
      forall x | x in pool && x !in inBlock {
        UnfitIs(x);
      }
    }

    lemma SomeFeeRefused(stop: Stop)
      requires ConfigValid() && (stop == FeeTooLow ==> exists x, m :: FeeRefused(x, m))
      ensures stop == FeeTooLow ==>
                exists x, m :: FeeRefused(x, m) && x in pool && x !in inBlock && m.nModFeesWithAncestors < minFee(m.nSizeWithAncestors)
    {
      hide NotUnder, Tracked, PoolValid;
      if stop == FeeTooLow {
        var x, m :| FeeRefused(x, m);
        assert FeeRefused(x, m) && x in pool && x !in inBlock && m.nModFeesWithAncestors < minFee(m.nSizeWithAncestors);
      }
    }

    // The selection loop.  For every mempool, every score order and every
    // starting block it ends, and leaves a block whose transactions follow
    // their ancestors, whose counters are exact and whose limits hold.  If it
    // runs out of candidates, no transaction was left out without a reason.
    method AddPackageTxs() returns (stop: Stop, nDescendantsUpdated: nat)
      requires Valid()
      modifies this
      ensures Valid() && old(vtx) <= vtx
      ensures inBlock <= pool.Keys && inBlock == (set x | x in vtx) && forall i, j | 0 <= i < j < |vtx| :: vtx[i] != vtx[j]
      ensures forall i, y | 0 <= i < |vtx| && y in pool[vtx[i]].ancestors :: y in vtx[..i]
      ensures nBlockWeight == 32_000 + Sum(pool, inBlock).weight <= nBlockMaxWeight <= 31_968_000
      ensures nBlockSigOpsCost == 400 + Sum(pool, inBlock).sigOps < 640_000
      ensures fNeedSizeAccounting ==> nBlockSize == 1_000 + Sum(pool, inBlock).serialized <= nBlockMaxSize
      ensures nBlockTx == |vtx| && nFees == Sum(pool, inBlock).fee
      ensures forall x | x in vtx :: pool[x].isEligible
      ensures stop == Exhausted ==>
                forall x | x in pool && x !in inBlock ::
                  && Package(pool, x) <= pool.Keys
                  && var t := Sum(pool, Package(pool, x));
                     || nBlockMaxWeight <= nBlockWeight + 32 * t.size
                     || 640_000 <= nBlockSigOpsCost + t.sigOps
                     || (exists y | y in Package(pool, x) :: !pool[y].isEligible)
                     || (fNeedSizeAccounting && nBlockMaxSize <= nBlockSize + t.serialized)
      ensures stop == FeeTooLow ==>
                exists x, m :: FeeRefused(x, m) && x in pool && x !in inBlock && m.nModFeesWithAncestors < minFee(m.nSizeWithAncestors)
      ensures stop == NearlyFull ==> nBlockWeight > nBlockMaxWeight - 32_000
      ensures stop != Continue
    {
      hide Valid, NeverUnder, ConfigValid, Unfit, FeeRefused, Settled, TxsLeft, Sum, Package;
      stop, nDescendantsUpdated := Continue, 0;
      var mapModified := StartSelecting();
      var failedTx: set<TxIter> := {};
      var mi := 0;
      var nConsecutiveFailed := 0;
      while mi < |order| || mapModified != map[]
        invariant 0 <= mi <= |order|
        invariant Selecting(mapModified, failedTx) && old(vtx) <= vtx
        invariant SettledUpTo(mapModified, mi) && stop == Continue
        decreases TxsLeft(), EntriesLeft(mi, mapModified)
      {
        if mi < |order| && SkipMapTxEntry(order[mi], mapModified, failedTx) {
          SkippedIsSettled(mapModified, failedTx, order[mi]);
          mi := mi + 1;
          continue;
        }
        var n;
        stop, mi, mapModified, failedTx, nConsecutiveFailed, n :=
          Evaluate(mi, mapModified, failedTx, nConsecutiveFailed);
        nDescendantsUpdated := nDescendantsUpdated + n;
        if stop != Continue {
          break;
        }
      }
      if stop == Continue {
        stop := Exhausted;
        AllSettled(failedTx);
        AllExplained();
      }
      BlockIsSound();
      SomeFeeRefused(stop);
    }
  }
}
