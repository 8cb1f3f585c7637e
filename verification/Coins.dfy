/**
 The UTXO cache stack: write-back caches layered over a coin database.

 Each cache may drop entries it can prove its base does not need (FRESH) and
 skip entries it has not changed (not DIRTY).  The contracts below are stated
 against the plain map of unspent coins that a view shows.
 */
module Coins {
  import opened Options

  const OP_RETURN: bv8 := 0x6a
  const MAX_SCRIPT_SIZE: nat := 20000

  datatype OutPoint = OutPoint(hash: nat, n: nat)

  datatype TxOut = TxOut(nValue: int, scriptPubKey: seq<bv8>)

  datatype Coin = Coin(out: TxOut, fCoinBase: bool, nHeight: nat) {
    predicate IsSpent() {
      out.nValue == -1
    }

    predicate IsUnspendable() {
      (|out.scriptPubKey| > 0 && out.scriptPubKey[0] == OP_RETURN) || |out.scriptPubKey| > MAX_SCRIPT_SIZE
    }
  }

  // A default-constructed, or cleared, coin.
  const EMPTY_COIN := Coin(TxOut(-1, []), false, 0)

  // DIRTY and FRESH are the two flag bits of a cache entry.
  datatype CacheEntry = CacheEntry(coin: Coin, isDirty: bool, isFresh: bool)

  type CoinMap = map<OutPoint, Coin>

  type CacheMap = map<OutPoint, CacheEntry>

  function Find(view: CoinMap, o: OutPoint): Option<Coin> {
    if o in view then Some(view[o]) else None
  }

  // What a cache shows on top of its base: its own entry if it has one, spent
  // entries hiding the base's coin, and the base's coin otherwise.
  function Overlay(base: CoinMap, cache: CacheMap): CoinMap {
    map o | o in base.Keys + cache.Keys && (o in cache ==> !cache[o].coin.IsSpent())
      :: if o in cache then cache[o].coin else base[o]
  }

  lemma SameView(a: CoinMap, b: CoinMap)
    requires forall o :: Find(a, o) == Find(b, o)
    ensures a == b
  {
    forall o
      ensures o in a <==> o in b
      ensures o in a ==> a[o] == b[o]
    {
      assert Find(a, o) == Find(b, o);
    }
  }

  predicate AllUnspent(view: CoinMap) {
    forall o | o in view :: !view[o].IsSpent()
  }

  // The meaning of the flags: FRESH promises that the base shows no coin, and
  // an entry that is not DIRTY shows exactly what the base shows.
  predicate FlagsHonest(base: CoinMap, o: OutPoint, e: CacheEntry) {
    && (e.isFresh ==> o !in base)
    && (!e.isDirty ==> Find(base, o) == if e.coin.IsSpent() then None else Some(e.coin))
  }

  predicate AllHonest(base: CoinMap, cache: CacheMap) {
    forall o | o in cache :: FlagsHonest(base, o, cache[o])
  }

  // Filling a cache from its base changes nothing that can be seen.
  lemma FillIsInvisible(base: CoinMap, cache: CacheMap, o: OutPoint, filled: CacheMap)
    requires AllHonest(base, cache) && o !in cache && o in base && !base[o].IsSpent()
    requires filled == cache[o := CacheEntry(base[o], false, false)]
    ensures AllHonest(base, filled)
    ensures Overlay(base, filled) == Overlay(base, cache)
  {
    SameView(Overlay(base, filled), Overlay(base, cache));
  }

  lemma EmptyCacheIsInvisible(base: CoinMap)
    ensures Overlay(base, map[]) == base
  {
    SameView(Overlay(base, map[]), base);
  }

  // The cache map after AddCoin has stored an unspent, spendable coin.
  function Added(cache: CacheMap, o: OutPoint, coin: Coin, possibleOverwrite: bool): CacheMap {
    var old_ := if o in cache then cache[o] else CacheEntry(EMPTY_COIN, false, false);
    cache[o := CacheEntry(coin, true, old_.isFresh || (!possibleOverwrite && !old_.isDirty))]
  }

  // The cache map after SpendCoin has spent an entry that is present.
  function Spent(cache: CacheMap, o: OutPoint): CacheMap
    requires o in cache
  {
    if cache[o].isFresh then cache - {o}
    else cache[o := CacheEntry(EMPTY_COIN, true, false)]
  }

  // Adding shows the new coin, and keeps the flags honest exactly when the
  // caller either allowed overwriting, or the base has no coin of its own.
  lemma AddIsPlainInsert(base: CoinMap, cache: CacheMap, o: OutPoint, coin: Coin, possibleOverwrite: bool)
    requires AllHonest(base, cache) && !coin.IsSpent()
    requires o in cache && !possibleOverwrite ==> cache[o].coin.IsSpent()
    ensures Overlay(base, Added(cache, o, coin, possibleOverwrite)) == Overlay(base, cache)[o := coin]
    ensures AllHonest(base, Added(cache, o, coin, possibleOverwrite)) <==>
              possibleOverwrite || o in cache || o !in base
  {
    var added := Added(cache, o, coin, possibleOverwrite);
    SameView(Overlay(base, added), Overlay(base, cache)[o := coin]);
    if AllHonest(base, added) {
      assert FlagsHonest(base, o, added[o]);
    }
  }

  lemma SpendIsPlainRemove(base: CoinMap, cache: CacheMap, o: OutPoint)
    requires AllHonest(base, cache) && o in cache
    ensures Overlay(base, Spent(cache, o)) == Overlay(base, cache) - {o}
    ensures AllHonest(base, Spent(cache, o))
  {
    SameView(Overlay(base, Spent(cache, o)), Overlay(base, cache) - {o});
  }

  // Without the promise that the base has no coin, a coin added as new and
  // then spent makes the old coin of the base reappear.
  lemma DishonestAddResurrects(base: CoinMap, cache: CacheMap, o: OutPoint, coin: Coin)
    requires o !in cache && o in base
    ensures Find(Overlay(base, Spent(Added(cache, o, coin, false), o)), o) == Some(base[o])
  {
  }

  lemma DropCleanIsInvisible(base: CoinMap, cache: CacheMap, o: OutPoint)
    requires AllHonest(base, cache) && o in cache && !cache[o].isDirty
    ensures Overlay(base, cache - {o}) == Overlay(base, cache)
  {
    SameView(Overlay(base, cache - {o}), Overlay(base, cache));
  }

  // The source's "FRESH flag misapplied" condition for one child entry.
  predicate Misapplied(parent: CacheMap, o: OutPoint, e: CacheEntry) {
    e.isDirty && e.isFresh && o in parent && !parent[o].coin.IsSpent()
  }

  // The parent's map after one child entry has been written into it.
  function Written(parent: CacheMap, o: OutPoint, e: CacheEntry): CacheMap {
    if !e.isDirty then parent
    else if o !in parent then
      if e.isFresh && e.coin.IsSpent() then parent
      else parent[o := CacheEntry(e.coin, true, e.isFresh)]
    else if parent[o].isFresh && e.coin.IsSpent() then parent - {o}
    else parent[o := CacheEntry(e.coin, true, parent[o].isFresh)]
  }

  lemma OverlayFind(base: CoinMap, parent: CacheMap, o: OutPoint)
    ensures Find(Overlay(base, parent), o) ==
              if o in parent then (if parent[o].coin.IsSpent() then None else Some(parent[o].coin)) else Find(base, o)
  {
  }

  lemma WrittenHonest(base: CoinMap, parent: CacheMap, o: OutPoint, e: CacheEntry)
    requires AllHonest(base, parent) && FlagsHonest(Overlay(base, parent), o, e)
    ensures AllHonest(base, Written(parent, o, e)) && !Misapplied(parent, o, e)
  {
    OverlayFind(base, parent, o);
    hide Overlay;
  }

  // Writing an honest child entry moves exactly that entry's coin, or absence,
  // into the parent's view; the parent may drop it and still be honest.
  lemma WriteIsPlainUpdate(base: CoinMap, parent: CacheMap, o: OutPoint, e: CacheEntry)
    requires AllHonest(base, parent) && FlagsHonest(Overlay(base, parent), o, e)
    ensures AllHonest(base, Written(parent, o, e))
    ensures !Misapplied(parent, o, e)
    ensures Overlay(base, Written(parent, o, e)) ==
              if e.coin.IsSpent() then Overlay(base, parent) - {o} else Overlay(base, parent)[o := e.coin]
  {
    WrittenHonest(base, parent, o, e);
    OverlayFind(base, parent, o);
    hide AllHonest;
    var view := Overlay(base, parent);
    SameView(Overlay(base, Written(parent, o, e)), if e.coin.IsSpent() then view - {o} else view[o := e.coin]);
  }

  // A batch write in progress: the entries outside `rest` have been moved from
  // the child's map `entries` into the cache, the others are still to come.
  ghost predicate WritePending(base: CoinMap, view: CoinMap, entries: CacheMap, rest: set<OutPoint>, cache: CacheMap) {
    && AllHonest(base, cache)
    && (forall o | o in rest :: Find(Overlay(base, cache), o) == Find(view, o))
    && (forall o | o !in rest :: Find(Overlay(base, cache), o) == Find(Overlay(view, entries), o))
  }

  lemma WriteAdvances(base: CoinMap, view: CoinMap, entries: CacheMap, rest: set<OutPoint>, cache: CacheMap, o: OutPoint)
    requires AllHonest(view, entries) && rest <= entries.Keys && o in rest
    requires WritePending(base, view, entries, rest, cache)
    ensures !Misapplied(cache, o, entries[o])
    ensures WritePending(base, view, entries, rest - {o}, Written(cache, o, entries[o]))
  {
    assert FlagsHonest(view, o, entries[o]);
    assert FlagsHonest(Overlay(base, cache), o, entries[o]);
    WriteIsPlainUpdate(base, cache, o, entries[o]);
  }

  datatype Tx = Tx(txid: nat, vout: seq<TxOut>, isCoinBase: bool)

  // The plain map after the first `k` outputs of a transaction were created.
  function WithOutputs(view: CoinMap, tx: Tx, nHeight: nat, k: nat): CoinMap
    requires k <= |tx.vout|
  {
    if k == 0 then view else
    var before := WithOutputs(view, tx, nHeight, k - 1);
    var coin := Coin(tx.vout[k - 1], tx.isCoinBase, nHeight);
    if coin.IsUnspendable() then before else before[OutPoint(tx.txid, k - 1) := coin]
  }

  // What AddCoins relies on: real outputs, and no overwriting unless it is
  // checked for or the transaction is a coinbase.
  predicate CanAddOutputs(view: CoinMap, tx: Tx, check: bool) {
    && (forall k | 0 <= k < |tx.vout| :: tx.vout[k].nValue != -1)
    && (check || tx.isCoinBase || forall k | 0 <= k < |tx.vout| :: OutPoint(tx.txid, k) !in view)
  }

  // A script that no input can satisfy.
  predicate NoInputSpends(script: seq<bv8>) {
    [0x6a] <= script || |script| > 20000
  }

  lemma UnspendableExactly(coin: Coin)
    ensures coin.IsUnspendable() <==> NoInputSpends(coin.out.scriptPubKey)
  {
    var script := coin.out.scriptPubKey;
    assert |script| > 0 ==> script[..1] == [script[0]];
  }

  // Each outpoint of the transaction shows the output of its own number, unless
  // that can never be spent.  Everything else is as it was.
  lemma {:induction false} WithOutputsAt(view: CoinMap, tx: Tx, nHeight: nat, k: nat, o: OutPoint)
    requires k <= |tx.vout|
    ensures Find(WithOutputs(view, tx, nHeight, k), o) ==
              if o.hash == tx.txid && o.n < k && !NoInputSpends(tx.vout[o.n].scriptPubKey)
              then Some(Coin(tx.vout[o.n], tx.isCoinBase, nHeight)) else Find(view, o)
  {
    if k > 0 {
      WithOutputsAt(view, tx, nHeight, k - 1, o);
      UnspendableExactly(Coin(tx.vout[k - 1], tx.isCoinBase, nHeight));
      hide NoInputSpends;
    }
  }

  lemma OutputsShown(view: CoinMap, tx: Tx, nHeight: nat)
    ensures var after := WithOutputs(view, tx, nHeight, |tx.vout|);
            && (forall k | 0 <= k < |tx.vout| ::
                  var o := OutPoint(tx.txid, k);
                  Find(after, o) == if NoInputSpends(tx.vout[k].scriptPubKey) then Find(view, o)
                                    else Some(Coin(tx.vout[k], tx.isCoinBase, nHeight)))
            && (forall o: OutPoint | o.hash != tx.txid || o.n >= |tx.vout| :: Find(after, o) == Find(view, o))
  {
    hide WithOutputs, NoInputSpends, Find;
    forall o
      ensures Find(WithOutputs(view, tx, nHeight, |tx.vout|), o) ==
              if o.hash == tx.txid && o.n < |tx.vout| && !NoInputSpends(tx.vout[o.n].scriptPubKey)
              then Some(Coin(tx.vout[o.n], tx.isCoinBase, nHeight)) else Find(view, o)
    {
      WithOutputsAt(view, tx, nHeight, |tx.vout|, o);
    }
  }

  lemma OutputsAhead(view: CoinMap, tx: Tx, nHeight: nat, k: nat, n: nat)
    requires k <= |tx.vout| && k <= n
    ensures OutPoint(tx.txid, n) in WithOutputs(view, tx, nHeight, k) <==> OutPoint(tx.txid, n) in view
  {
  }

  /** The coin database at the bottom of a stack. */
  class CoinsViewDB {
    var coins: CoinMap

    constructor (initial: CoinMap)
      requires AllUnspent(initial)
      ensures coins == initial
    {
      coins := initial;
    }

    // Only dirty entries reach the disk: spent ones are erased, the rest written.
    method BatchWrite(mapCoins: CacheMap)
      requires AllUnspent(coins)
      modifies this
      ensures AllUnspent(coins)
      ensures AllHonest(old(coins), mapCoins) ==> coins == Overlay(old(coins), mapCoins)
    {
      var rest := mapCoins.Keys;
      while rest != {}
        invariant rest <= mapCoins.Keys && AllUnspent(coins)
        invariant AllHonest(old(coins), mapCoins) ==>
                    forall o :: Find(coins, o) == Find(if o in rest then old(coins) else Overlay(old(coins), mapCoins), o)
        decreases rest
      {
        var o :| o in rest;
        var e := mapCoins[o];
        assert AllHonest(old(coins), mapCoins) ==> FlagsHonest(old(coins), o, e);
        if e.isDirty {
          coins := if e.coin.IsSpent() then coins - {o} else coins[o := e.coin];
        }
        rest := rest - {o};
      }
      if AllHonest(old(coins), mapCoins) {
        SameView(coins, Overlay(old(coins), mapCoins));
      }
    }
  }

  /** A cache over another cache, or over the database when `base` is null. */
  class CoinsViewCache {
    const base: CoinsViewCache?
    const db: CoinsViewDB
    ghost const below: set<object>
    var cacheCoins: CacheMap

    constructor (base: CoinsViewCache?, db: CoinsViewDB)
      requires if base != null then base.Valid() && base.db == db else AllUnspent(db.coins)
      ensures this.base == base && this.db == db
      ensures below == if base == null then {db} else {base} + base.below
      ensures cacheCoins == map[]
      ensures Valid()
    {
      this.base := base;
      this.db := db;
      this.below := if base == null then {db} else {base} + base.below;
      this.cacheCoins := map[];
    }

    // The stack is fixed at construction and never loops back on itself.
    ghost predicate Wired()
      decreases |below|
    {
      && this !in below
      && (base == null ==> below == {db})
      && (base != null ==>
            && base.db == db
            && below == {base} + base.below
            && |base.below| < |below|
            && base.Wired())
    }

    // The coins the base shows.
    ghost function BaseView(): CoinMap
      requires Wired()
      reads below
      decreases |below|, 0
    {
      if base == null then db.coins else base.View()
    }

    // The coins this cache shows.
    ghost function View(): CoinMap
      requires Wired()
      reads this, below
      decreases |below|, 1
    {
      Overlay(BaseView(), cacheCoins)
    }

    ghost predicate Valid()
      reads this, below
      decreases |below|
    {
      && Wired()
      && (if base != null then base.Valid() else AllUnspent(db.coins))
      && AllHonest(BaseView(), cacheCoins)
    }

    // Enters a coin of the base, unchanged, into this cache.
    method FillEntry(o: OutPoint, coin: Coin)
      requires Valid() && o !in cacheCoins && Find(BaseView(), o) == Some(coin) && !coin.IsSpent()
      modifies this`cacheCoins
      ensures Valid() && View() == old(View())
      ensures cacheCoins == old(cacheCoins)[o := CacheEntry(coin, false, false)]
    {
      // An empty coin in the base would make our version fresh.
      var entry := CacheEntry(coin, false, coin.IsSpent());
      FillIsInvisible(BaseView(), cacheCoins, o, cacheCoins[o := entry]);
      cacheCoins := cacheCoins[o := entry];
    }

    // Brings the entry for `o` into this cache if the base has an unspent coin;
    // every cache underneath is filled on the way.
    method FetchCoin(o: OutPoint) returns (found: bool)
      requires Valid()
      modifies this, below
      decreases |below|, 0
      ensures Valid() && View() == old(View()) && BaseView() == old(BaseView())
      ensures db.coins == old(db.coins)
      ensures found <==> o in cacheCoins
      ensures cacheCoins == if o in old(cacheCoins) || o !in BaseView() then old(cacheCoins)
                            else old(cacheCoins)[o := CacheEntry(BaseView()[o], false, false)]
    {
      if o in cacheCoins {
        return true;
      }
      var tmp: Option<Coin>;
      if base == null {
        tmp := Find(db.coins, o);
      } else {
        tmp := base.GetCoin(o);
      }
      if tmp == None {
        return false;
      }
      FillEntry(o, tmp.value);
      return true;
    }

    method GetCoin(o: OutPoint) returns (coin: Option<Coin>)
      requires Valid()
      modifies this, below
      decreases |below|, 1
      ensures Valid() && View() == old(View()) && BaseView() == old(BaseView())
      ensures db.coins == old(db.coins)
      ensures coin == Find(View(), o)
      ensures coin.Some? ==> !coin.value.IsSpent()
    {
      var found := FetchCoin(o);
      if found && !cacheCoins[o].coin.IsSpent() {
        coin := Some(cacheCoins[o].coin);
      } else {
        coin := None;
      }
    }

    // Reports the source's logic error instead of throwing it.  The flags stay
    // honest exactly for callers that allow overwriting where the base shows a
    // coin that is not cached.
    method AddCoin(o: OutPoint, coin: Coin, possibleOverwrite: bool) returns (thrown: bool)
      requires Valid() && !coin.IsSpent()
      modifies this`cacheCoins
      ensures Wired()
      ensures Valid() <==> possibleOverwrite || coin.IsUnspendable() || o in old(cacheCoins) || o !in old(BaseView())
      ensures thrown <==> !possibleOverwrite && !coin.IsUnspendable() && o in old(cacheCoins) && !old(cacheCoins)[o].coin.IsSpent()
      ensures Valid() ==> (thrown <==> !possibleOverwrite && !coin.IsUnspendable() && o in old(View()))
      ensures View() == if thrown || coin.IsUnspendable() then old(View()) else old(View())[o := coin]
      ensures thrown || coin.IsUnspendable() ==> cacheCoins == old(cacheCoins)
    {
      if coin.IsUnspendable() {
        return false;
      }
      var entry := if o in cacheCoins then cacheCoins[o] else CacheEntry(EMPTY_COIN, false, false);
      var isFresh := false;
      if !possibleOverwrite {
        if !entry.coin.IsSpent() {
          return true;
        }
        isFresh := !entry.isDirty;
      }
      AddIsPlainInsert(BaseView(), cacheCoins, o, coin, possibleOverwrite);
      cacheCoins := cacheCoins[o := CacheEntry(coin, true, entry.isFresh || isFresh)];
      return false;
    }

    // The part of SpendCoin after the entry has been fetched.
    method SpendEntry(o: OutPoint)
      requires Valid() && o in cacheCoins
      modifies this`cacheCoins
      ensures Valid()
      ensures View() == old(View()) - {o}
      ensures cacheCoins == Spent(old(cacheCoins), o)
    {
      SpendIsPlainRemove(BaseView(), cacheCoins, o);
      if cacheCoins[o].isFresh {
        cacheCoins := cacheCoins - {o};
      } else {
        cacheCoins := cacheCoins[o := CacheEntry(EMPTY_COIN, true, cacheCoins[o].isFresh)];
      }
    }

    // Spending is a plain removal; the spent coin is handed out.  True is
    // returned for every entry that could be found, spent or not.
    method SpendCoin(o: OutPoint) returns (found: bool, moveout: Coin)
      requires Valid()
      modifies this, below
      ensures Valid() && BaseView() == old(BaseView())
      ensures View() == old(View()) - {o}
      ensures found <==> o in old(cacheCoins) || o in BaseView()
      ensures Find(old(View()), o) == if found && !moveout.IsSpent() then Some(moveout) else None
    {
      moveout := EMPTY_COIN;
      found := FetchCoin(o);
      if !found {
        return;
      }
      moveout := cacheCoins[o].coin;
      SpendEntry(o);
    }

    method Uncache(o: OutPoint)
      requires Valid()
      modifies this`cacheCoins
      ensures Valid() && View() == old(View())
      ensures cacheCoins == if o in old(cacheCoins) && !old(cacheCoins)[o].isDirty && !old(cacheCoins)[o].isFresh
                            then old(cacheCoins) - {o} else old(cacheCoins)
    {
      if o in cacheCoins && !cacheCoins[o].isDirty && !cacheCoins[o].isFresh {
        DropCleanIsInvisible(BaseView(), cacheCoins, o);
        cacheCoins := cacheCoins - {o};
      }
    }

    // Writes one child entry; reports a misapplied FRESH flag and then changes nothing.
    method WriteEntry(o: OutPoint, e: CacheEntry) returns (misapplied: bool)
      modifies this`cacheCoins
      ensures misapplied <==> Misapplied(old(cacheCoins), o, e)
      ensures cacheCoins == if misapplied then old(cacheCoins) else Written(old(cacheCoins), o, e)
    {
      if !e.isDirty {
        return false;
      }
      if o !in cacheCoins {
        if !(e.isFresh && e.coin.IsSpent()) {
          cacheCoins := cacheCoins[o := CacheEntry(e.coin, true, e.isFresh)];
        }
      } else {
        if e.isFresh && !cacheCoins[o].coin.IsSpent() {
          return true;
        }
        if cacheCoins[o].isFresh && e.coin.IsSpent() {
          cacheCoins := cacheCoins - {o};
        } else {
          cacheCoins := cacheCoins[o := CacheEntry(e.coin, true, cacheCoins[o].isFresh)];
        }
      }
      return false;
    }

    // Writes a child's map into this cache.  The error is reported exactly when
    // some entry is misapplied, which an honest child never causes.
    method BatchWrite(mapCoins: CacheMap) returns (misapplied: bool)
      requires Valid()
      modifies this`cacheCoins
      ensures misapplied <==> exists o | o in mapCoins :: Misapplied(old(cacheCoins), o, mapCoins[o])
      ensures AllHonest(old(View()), mapCoins) ==>
                !misapplied && Valid() && View() == Overlay(old(View()), mapCoins)
    {
      ghost var view, bottom := View(), BaseView();
      var rest := mapCoins.Keys;
      while rest != {}
        invariant rest <= mapCoins.Keys && BaseView() == bottom
        invariant forall o | o in rest :: o in cacheCoins <==> o in old(cacheCoins)
        invariant forall o | o in rest && o in cacheCoins :: cacheCoins[o] == old(cacheCoins)[o]
        invariant forall o | o in mapCoins && o !in rest :: !Misapplied(old(cacheCoins), o, mapCoins[o])
        invariant AllHonest(view, mapCoins) ==> WritePending(bottom, view, mapCoins, rest, cacheCoins)
        decreases rest
      {
        var o :| o in rest;
        if AllHonest(view, mapCoins) {
          WriteAdvances(bottom, view, mapCoins, rest, cacheCoins, o);
        }
        misapplied := WriteEntry(o, mapCoins[o]);
        if misapplied {
          return;
        }
        rest := rest - {o};
      }
      if AllHonest(view, mapCoins) {
        SameView(View(), Overlay(view, mapCoins));
      }
      return false;
    }

    // Pushing the changes down makes the base show what this cache showed.
    method Flush()
      requires Valid()
      modifies this, below
      ensures Valid()
      ensures View() == old(View()) && BaseView() == old(View())
      ensures cacheCoins == map[]
    {
      ghost var view := View();
      if base == null {
        db.BatchWrite(cacheCoins);
      } else {
        var misapplied := base.BatchWrite(cacheCoins);
        assert !misapplied;
      }
      assert BaseView() == view;
      cacheCoins := map[];
      EmptyCacheIsInvisible(view);
    }

    method HaveCoin(o: OutPoint) returns (have: bool)
      requires Valid()
      modifies this, below
      ensures Valid() && View() == old(View()) && BaseView() == old(BaseView())
      ensures have <==> o in View()
    {
      var coin := GetCoin(o);
      have := coin.Some?;
    }

    // One turn of the AddCoins loop.
    method AddOutput(o: OutPoint, coin: Coin, check: bool)
      requires Valid() && !coin.IsSpent()
      requires check || coin.fCoinBase || o !in View()
      modifies this, below
      ensures Valid()
      ensures View() == if coin.IsUnspendable() then old(View()) else old(View())[o := coin]
    {
      var overwrite := coin.fCoinBase;
      if check {
        overwrite := HaveCoin(o);
      }
      var thrown := AddCoin(o, coin, overwrite);
      assert !thrown;
    }

    // Creates every output of a transaction.
    method AddCoins(tx: Tx, nHeight: nat, check: bool)
      requires Valid() && CanAddOutputs(View(), tx, check)
      modifies this, below
      ensures Valid()
      ensures View() == WithOutputs(old(View()), tx, nHeight, |tx.vout|)
      ensures forall k | 0 <= k < |tx.vout| ::
                var o := OutPoint(tx.txid, k);
                Find(View(), o) == if NoInputSpends(tx.vout[k].scriptPubKey) then Find(old(View()), o)
                                   else Some(Coin(tx.vout[k], tx.isCoinBase, nHeight))
      ensures forall o: OutPoint | o.hash != tx.txid || o.n >= |tx.vout| :: Find(View(), o) == Find(old(View()), o)
    {
      for i := 0 to |tx.vout|
        invariant Valid() && View() == WithOutputs(old(View()), tx, nHeight, i)
      {
        OutputsAhead(old(View()), tx, nHeight, i, i);
        AddOutput(OutPoint(tx.txid, i), Coin(tx.vout[i], tx.isCoinBase, nHeight), check);
      }
      OutputsShown(old(View()), tx, nHeight);
    }

    // Flushes the cache `level` steps down the stack; nothing above it notices.
    method FlushAt(level: nat)
      requires Valid()
      modifies this, below
      decreases |below|
      ensures Valid() && View() == old(View())
    {
      if level == 0 {
        Flush();
      } else if base != null {
        base.FlushAt(level - 1);
      }
    }

    method UncacheAt(level: nat, o: OutPoint)
      requires Valid()
      modifies this, below
      decreases |below|
      ensures Valid() && View() == old(View())
    {
      if level == 0 {
        Uncache(o);
      } else if base != null {
        base.UncacheAt(level - 1, o);
      }
    }
  }

  /** One operation on a stack of caches. */
  datatype Op =
    | Add(o: OutPoint, coin: Coin, possibleOverwrite: bool)
    | AddTx(tx: Tx, nHeight: nat, check: bool)
    | Spend(o: OutPoint)
    | Get(o: OutPoint)
    | DropClean(level: nat, o: OutPoint)
    | FlushLevel(level: nat)
    | PushCache
    | PopCache

  // What the caller of each operation promises, in terms of the plain map.
  predicate Allowed(view: CoinMap, op: Op) {
    match op
    case Add(o, coin, possibleOverwrite) => !coin.IsSpent() && (possibleOverwrite || o !in view)
    case AddTx(tx, _, check) => CanAddOutputs(view, tx, check)
    case _ => true
  }

  // The same operation on the plain map; caching operations do nothing to it.
  function PlainStep(view: CoinMap, op: Op): CoinMap {
    match op
    case Add(o, coin, _) => if coin.IsUnspendable() then view else view[o := coin]
    case AddTx(tx, nHeight, _) => WithOutputs(view, tx, nHeight, |tx.vout|)
    case Spend(o) => view - {o}
    case _ => view
  }

  // The coin that a step shows its caller.
  function PlainSeen(view: CoinMap, op: Op): Option<Coin> {
    if op.Spend? || op.Get? then Find(view, op.o) else None
  }

  function PlainRun(view: CoinMap, ops: seq<Op>): CoinMap
    decreases |ops|
  {
    if ops == [] then view else PlainRun(PlainStep(view, ops[0]), ops[1..])
  }

  function PlainTrace(view: CoinMap, ops: seq<Op>): seq<Option<Coin>>
    decreases |ops|
  {
    if ops == [] then [] else [PlainSeen(view, ops[0])] + PlainTrace(PlainStep(view, ops[0]), ops[1..])
  }

  predicate AllAllowed(view: CoinMap, ops: seq<Op>)
    decreases |ops|
  {
    ops != [] ==> Allowed(view, ops[0]) && AllAllowed(PlainStep(view, ops[0]), ops[1..])
  }

  // The outpoints that an operation may create or spend.
  predicate Touches(op: Op, o: OutPoint) {
    match op
    case Add(p, _, _) => p == o
    case AddTx(tx, _, _) => o.hash == tx.txid && o.n < |tx.vout|
    case Spend(p) => p == o
    case _ => false
  }

  // What an operation does to an outpoint that it touches.
  lemma StepAt(view: CoinMap, op: Op, o: OutPoint)
    ensures !Touches(op, o) ==> Find(PlainStep(view, op), o) == Find(view, o)
    ensures op.Spend? && op.o == o ==> Find(PlainStep(view, op), o) == None
    ensures op.Add? && op.o == o && !NoInputSpends(op.coin.out.scriptPubKey) ==> Find(PlainStep(view, op), o) == Some(op.coin)
    ensures op.AddTx? && Touches(op, o) && !NoInputSpends(op.tx.vout[o.n].scriptPubKey) ==>
              Find(PlainStep(view, op), o) == Some(Coin(op.tx.vout[o.n], op.tx.isCoinBase, op.nHeight))
    ensures (op.Add? && NoInputSpends(op.coin.out.scriptPubKey)) ||
            (op.AddTx? && o.n < |op.tx.vout| && NoInputSpends(op.tx.vout[o.n].scriptPubKey)) ==>
              Find(PlainStep(view, op), o) == Find(view, o)
  {
    hide NoInputSpends, WithOutputs;
    if op.Add? {
      UnspendableExactly(op.coin);
    } else if op.AddTx? {
      WithOutputsAt(view, op.tx, op.nHeight, |op.tx.vout|, o);
    }
  }

  // A run shows at each outpoint what the last operation that touched it left
  // there, whatever was cached, flushed, pushed or popped in between.
  lemma {:induction false} LastTouchDecides(view: CoinMap, ops: seq<Op>, k: nat, o: OutPoint)
    requires k <= |ops| && forall j | k <= j < |ops| :: !Touches(ops[j], o)
    ensures Find(PlainRun(view, ops), o) == Find(PlainRun(view, ops[..k]), o)
    decreases |ops|
  {
    hide Touches, Find, PlainStep;
    if k == 0 && ops != [] {
      StepAt(view, ops[0], o);
      LastTouchDecides(PlainStep(view, ops[0]), ops[1..], 0, o);
      assert ops[1..][..0] == ops[..0];
    } else if k > 0 {
      LastTouchDecides(PlainStep(view, ops[0]), ops[1..], k - 1, o);
      assert ops[1..][..k - 1] == ops[..k][1..];
    }
  }

  // Reading or spending shows the coin that the run before it has left.
  lemma {:induction false} TraceAt(view: CoinMap, ops: seq<Op>, k: nat)
    requires k < |ops|
    ensures |PlainTrace(view, ops)| == |ops|
    ensures ops[k].Get? || ops[k].Spend? ==> PlainTrace(view, ops)[k] == Find(PlainRun(view, ops[..k]), ops[k].o)
    decreases |ops|
  {
    hide PlainStep;
    if k > 0 {
      TraceAt(PlainStep(view, ops[0]), ops[1..], k - 1);
      assert ops[1..][..k - 1] == ops[..k][1..];
    } else if |ops| > 1 {
      TraceAt(PlainStep(view, ops[0]), ops[1..], 0);
    }
  }

  // One step on the stack shows, and leaves visible, what the plain map does.
  method Step(stack: CoinsViewCache, op: Op) returns (top: CoinsViewCache, seen: Option<Coin>)
    requires stack.Valid() && Allowed(stack.View(), op)
    modifies stack, stack.below
    ensures top.Valid() && fresh({top} + top.below - {stack} - stack.below)
    ensures top.View() == PlainStep(old(stack.View()), op)
    ensures seen == PlainSeen(old(stack.View()), op)
  {
    top, seen := stack, None;
    match op {
      case Add(o, coin, possibleOverwrite) =>
        var thrown := stack.AddCoin(o, coin, possibleOverwrite);
        assert !thrown;
      case AddTx(tx, nHeight, check) =>
        stack.AddCoins(tx, nHeight, check);
      case Spend(o) =>
        var found, coin := stack.SpendCoin(o);
        if found && !coin.IsSpent() {
          seen := Some(coin);
        }
      case Get(o) =>
        seen := stack.GetCoin(o);
      case DropClean(level, o) =>
        stack.UncacheAt(level, o);
      case FlushLevel(level) =>
        stack.FlushAt(level);
      case PushCache =>
        top := new CoinsViewCache(stack, stack.db);
        EmptyCacheIsInvisible(stack.View());
      case PopCache =>
        stack.Flush();
        if stack.base != null {
          top := stack.base;
        }
    }
  }

  // Every run on every stack shows exactly the coins of the plain map, and
  // finally shows the plain map itself.
  method Run(stack: CoinsViewCache, ops: seq<Op>) returns (top: CoinsViewCache, seen: seq<Option<Coin>>)
    requires stack.Valid() && AllAllowed(stack.View(), ops)
    modifies stack, stack.below
    ensures top.Valid() && top.View() == PlainRun(old(stack.View()), ops)
    ensures seen == PlainTrace(old(stack.View()), ops)
  {
    top, seen := stack, [];
    var i := 0;
    while i < |ops|
      invariant 0 <= i <= |ops|
      invariant top.Valid() && fresh({top} + top.below - {stack} - stack.below)
      invariant AllAllowed(top.View(), ops[i..])
      invariant PlainRun(top.View(), ops[i..]) == PlainRun(old(stack.View()), ops)
      invariant seen + PlainTrace(top.View(), ops[i..]) == PlainTrace(old(stack.View()), ops)
    {
      assert ops[i..][1..] == ops[i + 1..];
      var shown;
      top, shown := Step(top, ops[i]);
      seen := seen + [shown];
      i := i + 1;
    }
  }
}
