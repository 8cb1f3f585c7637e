/**
 Compact blocks: a block is announced by short ids of its transactions and some
 transactions in full; the receiver matches short ids against its own pools and
 asks for the rest.
 */
module BlockEncodings {
  import opened Collections
  import opened Consensus
  import opened Options

  const MAX_UINT16: nat := 0xffff

  datatype Tx = Tx(hash: nat, witnessHash: nat, isNull: bool)

  /** The index counts from the prefilled transaction before. */
  datatype Prefilled = Prefilled(index: nat, tx: Tx)

  datatype CompactBlock = CompactBlock(header: Option<nat>, shorttxids: seq<nat>, prefilledtxn: seq<Prefilled>)

  /** A transaction of the mempool or of the extra list, with its hash. */
  datatype PoolTx = PoolTx(hash: nat, tx: Tx)

  datatype Status = Ok | Invalid | Failed | CheckBlockFailed

  // The keyed short hash of a block.
  type ShortId = nat -> nat

  function TxCount(c: CompactBlock): nat {
    |c.shorttxids| + |c.prefilledtxn|
  }

  // ------------------------------------------------------------------- making one

  function HashOf(tx: Tx, fUseWTXID: bool): nat {
    if fUseWTXID then tx.witnessHash else tx.hash
  }

  // Short ids of all transactions but the first, which is sent in full.
  method MakeCompact(header: nat, vtx: seq<Tx>, fUseWTXID: bool, sid: ShortId) returns (c: CompactBlock)
    requires vtx != []
    ensures IsCompactOf(c, vtx, fUseWTXID, sid) && c.header == Some(header)
    ensures c.prefilledtxn == [Prefilled(0, vtx[0])] && |c.shorttxids| == |vtx| - 1
    ensures forall i: nat | i < |vtx| - 1 ::
              c.shorttxids[i] == if fUseWTXID then sid(vtx[i + 1].witnessHash) else sid(vtx[i + 1].hash)
  {
    var shorttxids: seq<nat> := seq(|vtx| - 1, _ => 0);
    for i := 1 to |vtx|
      invariant |shorttxids| == |vtx| - 1
      invariant forall k | 1 <= k < i :: shorttxids[k - 1] == sid(HashOf(vtx[k], fUseWTXID))
    {
      shorttxids := shorttxids[i - 1 := sid(HashOf(vtx[i], fUseWTXID))];
    }
    c := CompactBlock(Some(header), shorttxids, [Prefilled(0, vtx[0])]);
  }

  ghost function ShortIds(vtx: seq<Tx>, fUseWTXID: bool, sid: ShortId): (r: seq<nat>)
    requires vtx != []
  {
    seq<nat>(|vtx| - 1, i requires 0 <= i < |vtx| - 1 => sid(HashOf(vtx[i + 1], fUseWTXID)))
  }

  ghost predicate IsCompactOf(c: CompactBlock, vtx: seq<Tx>, fUseWTXID: bool, sid: ShortId) {
    vtx != [] && c.prefilledtxn == [Prefilled(0, vtx[0])] && c.shorttxids == ShortIds(vtx, fUseWTXID, sid)
  }

  // ------------------------------------------------------------------- free slots

  type Slots = seq<Option<Tx>>

  // Free slots among the first k.
  ghost function Free(avail: Slots, k: nat): nat
    requires k <= |avail|
  {
    if k == 0 then 0 else Free(avail, k - 1) + if avail[k - 1].None? then 1 else 0
  }

  lemma {:induction false} FreeMonotone(avail: Slots, j: nat, k: nat)
    requires j <= k <= |avail|
    ensures Free(avail, j) <= Free(avail, k) <= Free(avail, j) + (k - j)
  {
    if j < k {
      FreeMonotone(avail, j, k - 1);
    }
  }

  // Filling a free slot takes one away.
  lemma {:induction false} FreeFilled(avail: Slots, p: nat, tx: Tx, k: nat)
    requires p < |avail| && avail[p].None? && k <= |avail|
    ensures Free(avail[p := Some(tx)], k) == Free(avail, k) - if p < k then 1 else 0
  {
    if k > 0 {
      FreeFilled(avail, p, tx, k - 1);
    }
  }

  lemma {:induction false} FreeAll(avail: Slots, k: nat)
    requires k <= |avail| && forall i | 0 <= i < k :: avail[i].None?
    ensures Free(avail, k) == k
  {
    if k > 0 {
      FreeAll(avail, k - 1);
    }
  }

  lemma FreeEmptied(avail: Slots, p: nat)
    requires p < |avail| && avail[p].Some?
    ensures Free(avail[p := None], |avail|) == Free(avail, |avail|) + 1
  {
    var a := avail[p := None];
    FreeFilled(a, p, avail[p].value, |a|);
    assert a[p := avail[p]] == avail;
  }

  // ------------------------------------------------------- prefilled transactions

  // Where prefilled transaction i belongs.
  function Position(pre: seq<Prefilled>, i: nat): nat
    requires i < |pre|
  {
    if i == 0 then pre[0].index else Position(pre, i - 1) + pre[i].index + 1
  }

  // Positions sent as the gaps between them are read back.
  lemma {:induction false} PositionsDecoded(at: seq<nat>, pre: seq<Prefilled>, i: nat)
    requires i < |pre| == |at| && (forall j, k | 0 <= j < k < |at| :: at[j] < at[k])
    requires pre[0].index == at[0] && forall j | 0 < j < |pre| :: pre[j].index == at[j] - at[j - 1] - 1
    ensures Position(pre, i) == at[i]
  {
    if i > 0 {
      PositionsDecoded(at, pre, i - 1);
    }
  }

  lemma {:induction false} PositionsGrow(pre: seq<Prefilled>, j: nat, i: nat)
    requires j < i < |pre|
    ensures Position(pre, j) < Position(pre, i)
  {
    if j < i - 1 {
      PositionsGrow(pre, j, i - 1);
    }
  }

  // The first n prefilled transactions are real and within the block.
  ghost predicate PrefilledOk(c: CompactBlock, n: nat)
    requires n <= |c.prefilledtxn|
  {
    forall i: nat | i < n ::
      !c.prefilledtxn[i].tx.isNull && Position(c.prefilledtxn, i) <= MAX_UINT16
      && Position(c.prefilledtxn, i) <= |c.shorttxids| + i
  }

  // The slots hold the first n prefilled transactions and nothing else.
  ghost predicate Placed(c: CompactBlock, n: nat, avail: Slots) {
    && n <= |c.prefilledtxn| && |avail| == TxCount(c)
    && (forall i: nat | i < n :: Position(c.prefilledtxn, i) < |avail| && avail[Position(c.prefilledtxn, i)] == Some(c.prefilledtxn[i].tx))
    && (forall p: nat | p < |avail| && avail[p].Some? :: n > 0 && p <= Position(c.prefilledtxn, n - 1))
    && Free(avail, |avail|) == |avail| - n
  }

  lemma PlacedNext(c: CompactBlock, n: nat, avail: Slots)
    requires Placed(c, n, avail) && n < |c.prefilledtxn| && Position(c.prefilledtxn, n) <= |c.shorttxids| + n
    ensures Position(c.prefilledtxn, n) < |avail|
    ensures Placed(c, n + 1, avail[Position(c.prefilledtxn, n) := Some(c.prefilledtxn[n].tx)])
  {
    hide Free;
    var p := Position(c.prefilledtxn, n);
    assert avail[p].None?;
    FreeFilled(avail, p, c.prefilledtxn[n].tx, |avail|);
    forall i: nat | i < n
      ensures Position(c.prefilledtxn, i) < p
    {
      PositionsGrow(c.prefilledtxn, i, n);
    }
  }

  // --------------------------------------------------------------- short ids

  // Short id k belongs to the k-th free slot.
  ghost predicate Assigned(avail: Slots, slots: seq<nat>) {
    forall k: nat | k < |slots| :: slots[k] < |avail| && avail[slots[k]].None? && Free(avail, slots[k]) == k
  }

  lemma SlotsGrow(avail: Slots, slots: seq<nat>, j: nat, k: nat)
    requires Assigned(avail, slots) && j < k < |slots|
    ensures slots[j] < slots[k]
  {
    hide Free;
    if slots[k] <= slots[j] {
      FreeMonotone(avail, slots[k], slots[j]);
    }
  }

  // Every free slot has a short id, if there are as many.
  lemma FreeIsAssigned(avail: Slots, slots: seq<nat>, p: nat)
    requires Assigned(avail, slots) && p < |avail| && avail[p].None? && Free(avail, |avail|) == |slots|
    ensures Free(avail, p) < |slots| && slots[Free(avail, p)] == p
  {
    FreeMonotone(avail, p + 1, |avail|);
    var k := Free(avail, p);
    assert Free(avail, p + 1) == k + 1;
    hide Free;
    var q := slots[k];
    assert Free(avail, q) == k;
    if q < p {
      FreeStep(avail, q);
      FreeMonotone(avail, q + 1, p);
    } else if p < q {
      FreeMonotone(avail, p + 1, q);
    }
  }

  lemma FreeStep(avail: Slots, p: nat)
    requires p < |avail| && avail[p].None?
    ensures Free(avail, p + 1) == Free(avail, p) + 1
  {
  }

  // The map sends distinct short ids to their slots; a smaller map has met a
  // short id twice.
  ghost predicate Mapped(ids: seq<nat>, slots: seq<nat>, m: map<nat, nat>) {
    && |slots| <= |ids| && |m| <= |slots|
    && (|m| == |slots| ==>
          && (forall k: nat | k < |slots| :: ids[k] in m && m[ids[k]] == slots[k])
          && (forall id | id in m :: id in ids[..|slots|]))
  }

  lemma MappedNext(ids: seq<nat>, slots: seq<nat>, m: map<nat, nat>, slot: nat)
    requires Mapped(ids, slots, m) && |slots| < |ids|
    ensures Mapped(ids, slots + [slot], m[ids[|slots|] := slot])
  {
    var id, n := ids[|slots|], m[ids[|slots|] := slot];
    MapSize(m, id, slot);
    if |n| == |slots| + 1 {
      forall x | x in n
        ensures x in ids[..|slots| + 1]
      {
        assert ids[..|slots| + 1] == ids[..|slots|] + [id];
      }
      forall k: nat | k < |slots|
        ensures ids[k] != id
      {
        assert ids[k] in m;
      }
    }
  }

  lemma MapSize(m: map<nat, nat>, id: nat, slot: nat)
    ensures |m[id := slot]| == |m| + if id in m then 0 else 1
  {
    var n := m[id := slot];
    if id in m {
      assert n.Keys == m.Keys;
    } else {
      assert n.Keys == m.Keys + {id};
    }
    assert |n| == |n.Keys| && |m| == |m.Keys|;
  }

  // ------------------------------------------------- slot numbers of 16 bits

  function Wrap16(n: nat): (r: nat)
    ensures r <= MAX_UINT16 && (r == n <==> n <= MAX_UINT16)
  {
    n % (MAX_UINT16 + 1)
  }

  ghost predicate FilledSlot(avail: Slots, p: nat) {
    p < |avail| && avail[p].Some?
  }

  ghost predicate FreeSlot(avail: Slots, p: nat) {
    p < |avail| && avail[p].None?
  }

  // The search of short id i passes filled slots for n steps and stops at a
  // free one.  Its offset has 16 bits.
  ghost predicate Stops(avail: Slots, i: nat, offset: nat, n: nat) {
    && (forall s: nat | s < n :: FilledSlot(avail, Visited(i, offset, s)))
    && FreeSlot(avail, Visited(i, offset, n))
  }

  function Visited(i: nat, offset: nat, s: nat): nat {
    i + Wrap16(offset + s)
  }

  ghost predicate Finds(avail: Slots, i: nat, offset: nat, found: nat) {
    exists n: nat :: Stops(avail, i, offset, n) && found == Wrap16(offset + n)
  }

  // The offsets at which the searches of the first short ids end, each going on
  // from the one before.
  ghost predicate Searched(avail: Slots, offs: seq<nat>) {
    forall k: nat | k < |offs| :: Finds(avail, k, StartOf(offs, k), offs[k])
  }

  function StartOf(offs: seq<nat>, k: nat): nat
    requires k <= |offs|
  {
    if k == 0 then 0 else offs[k - 1]
  }

  // The slot numbers that are kept for the short ids.
  ghost function Numbered(offs: seq<nat>): seq<nat> {
    seq(|offs|, k requires 0 <= k < |offs| => Wrap16(k + offs[k]))
  }

  // Offset o leads short id k to its own slot.
  ghost predicate InOrder(avail: Slots, k: nat, o: nat) {
    FreeSlot(avail, k + o) && Free(avail, k + o) == k
  }

  // No more slots than the prefilled ones come before a slot and are filled.
  lemma FilledBefore(avail: Slots, p: nat)
    requires p <= |avail|
    ensures p - Free(avail, p) <= |avail| - Free(avail, |avail|)
  {
    FreeMonotone(avail, p, |avail|);
  }

  lemma {:induction false} NextFree(avail: Slots, p: nat) returns (q: nat)
    requires p <= |avail| && Free(avail, p) < Free(avail, |avail|)
    ensures p <= q < |avail| && avail[q].None? && Free(avail, q) == Free(avail, p)
    ensures forall r: nat | p <= r < q :: avail[r].Some?
    decreases |avail| - p
  {
    if avail[p].None? {
      q := p;
    } else {
      FreeSkip(avail, p);
      q := NextFree(avail, p + 1);
    }
  }

  // With fewer than 65,536 prefilled transactions the offset never wraps, so the
  // search ends at the next free slot.
  lemma SearchEnds(avail: Slots, i: nat, offset: nat, q: nat)
    requires |avail| - Free(avail, |avail|) <= MAX_UINT16 && i + offset <= q < |avail| && avail[q].None? && Free(avail, q) == i
    requires forall r: nat | i + offset <= r < q :: avail[r].Some?
    ensures q - i <= MAX_UINT16 && Finds(avail, i, offset, q - i)
    ensures forall found | Finds(avail, i, offset, found) :: found == q - i
  {
    hide Free, Wrap16;
    FilledBefore(avail, q);
    var n := q - i - offset;
    forall s: nat | s <= n
      ensures Visited(i, offset, s) == i + offset + s
    {
      assert offset + s <= MAX_UINT16;
    }
    assert Stops(avail, i, offset, n);
    assert Wrap16(offset + n) == q - i;
    forall found | Finds(avail, i, offset, found)
      ensures found == q - i
    {
      var t: nat :| Stops(avail, i, offset, t) && found == Wrap16(offset + t);
      NotBefore(avail, i, offset, n, t);
      NotBefore(avail, i, offset, t, n);
    }
  }

  lemma NotBefore(avail: Slots, i: nat, offset: nat, n: nat, t: nat)
    requires Stops(avail, i, offset, n) && Stops(avail, i, offset, t)
    ensures n <= t
  {
    assert t < n ==> FilledSlot(avail, Visited(i, offset, t));
  }

  lemma SearchFrom(avail: Slots, i: nat, offset: nat) returns (o: nat)
    requires |avail| - Free(avail, |avail|) <= MAX_UINT16 && i + offset <= |avail|
    requires Free(avail, i + offset) == i < Free(avail, |avail|)
    ensures InOrder(avail, i, o) && Finds(avail, i, offset, o)
    ensures forall found | Finds(avail, i, offset, found) :: found == o
  {
    hide Free, Finds;
    var q := NextFree(avail, i + offset);
    SearchEnds(avail, i, offset, q);
    o := q - i;
  }

  // The first n searches end, and nowhere but at the free slots in order.
  lemma {:induction false} SearchesEnd(avail: Slots, n: nat) returns (offs: seq<nat>)
    requires |avail| - Free(avail, |avail|) <= MAX_UINT16 && n <= Free(avail, |avail|)
    ensures |offs| == n && Searched(avail, offs) && forall k: nat | k < n :: InOrder(avail, k, offs[k])
  {
    hide Free, Finds, InOrder;
    if n == 0 {
      offs := [];
    } else {
      var before := SearchesEnd(avail, n - 1);
      SearchStart(avail, n - 1, before);
      var o := SearchFrom(avail, n - 1, StartOf(before, n - 1));
      offs := before + [o];
      forall k: nat | k < n
        ensures Finds(avail, k, StartOf(offs, k), offs[k]) && InOrder(avail, k, offs[k])
      {
        assert StartOf(offs, k) == StartOf(before, k);
        assert k < n - 1 ==> Finds(avail, k, StartOf(before, k), before[k]) && InOrder(avail, k, before[k]);
      }
    }
  }

  // Where the search of short id i begins, i slots before it are free.
  lemma SearchStart(avail: Slots, i: nat, offs: seq<nat>)
    requires i <= |offs| && forall k: nat | k < i :: InOrder(avail, k, offs[k])
    ensures var offset := StartOf(offs, i);
            i + offset <= |avail| && Free(avail, i + offset) == i
  {
    if i > 0 {
      assert InOrder(avail, i - 1, offs[i - 1]);
      FreeStep(avail, i - 1 + offs[i - 1]);
    }
  }

  lemma {:induction false} SearchedIsInOrder(avail: Slots, offs: seq<nat>, n: nat)
    requires |avail| - Free(avail, |avail|) <= MAX_UINT16 && n <= |offs| <= Free(avail, |avail|) && Searched(avail, offs)
    ensures forall k: nat | k < n :: InOrder(avail, k, offs[k])
  {
    hide Free, Finds, InOrder;
    if n > 0 {
      SearchedIsInOrder(avail, offs, n - 1);
      SearchStart(avail, n - 1, offs);
      var o := SearchFrom(avail, n - 1, StartOf(offs, n - 1));
      assert Finds(avail, n - 1, StartOf(offs, n - 1), offs[n - 1]);
    }
  }

  // With 65,536 prefilled transactions they fill all slots that 16 bits number.
  lemma {:induction false} PositionAtLeast(pre: seq<Prefilled>, j: nat, i: nat)
    requires j <= i < |pre|
    ensures j <= Position(pre, j) && Position(pre, j) + (i - j) <= Position(pre, i)
    decreases i
  {
    if j < i {
      PositionAtLeast(pre, j, i - 1);
    } else if j > 0 {
      PositionAtLeast(pre, j - 1, j - 1);
    }
  }

  lemma AllPrefilled(c: CompactBlock, avail: Slots, p: nat)
    requires PrefilledOk(c, |c.prefilledtxn|) && Placed(c, |c.prefilledtxn|, avail)
    requires |c.prefilledtxn| > MAX_UINT16 && p <= MAX_UINT16
    ensures FilledSlot(avail, p)
  {
    hide Free;
    PositionAtLeast(c.prefilledtxn, p, MAX_UINT16);
    assert Position(c.prefilledtxn, p) == p;
  }

  // All searches end if and only if there is none, or fewer than 65,536
  // transactions are prefilled.
  lemma SearchesEndExactly(c: CompactBlock, avail: Slots)
    requires WellFormed(c) && Placed(c, |c.prefilledtxn|, avail)
    ensures (exists offs: seq<nat> :: |offs| == |c.shorttxids| && Searched(avail, offs)) <==>
            c.shorttxids == [] || |c.prefilledtxn| <= MAX_UINT16
  {
    PlacedFree(c, avail);
    hide Free, Placed, Finds, WellFormed;
    if c.shorttxids == [] {
      assert Searched(avail, []);
    } else if |c.prefilledtxn| <= MAX_UINT16 {
      var offs := SearchesEnd(avail, |c.shorttxids|);
    } else {
      NeverEnds(c, avail);
    }
  }

  lemma NeverEnds(c: CompactBlock, avail: Slots)
    requires WellFormed(c) && Placed(c, |c.prefilledtxn|, avail) && |c.prefilledtxn| > MAX_UINT16
    ensures forall offs: seq<nat> | |offs| > 0 :: !Searched(avail, offs)
  {
    hide Free, Placed;
    forall offs: seq<nat> | |offs| > 0
      ensures !Searched(avail, offs)
    {
      if Searched(avail, offs) {
        assert Finds(avail, 0, StartOf(offs, 0), offs[0]);
        var n: nat :| Stops(avail, 0, 0, n) && offs[0] == Wrap16(0 + n);
        AllPrefilled(c, avail, Visited(0, 0, n));
      }
    }
  }

  // Every short id reaches its own free slot in 16-bit arithmetic if and only
  // if the block has at most 65,536 transactions.
  lemma SlotsExact(c: CompactBlock, avail: Slots)
    requires WellFormed(c) && Placed(c, |c.prefilledtxn|, avail)
    ensures (exists offs: seq<nat> :: |offs| == |c.shorttxids| && Searched(avail, offs) && Assigned(avail, Numbered(offs))) <==>
            TxCount(c) <= MAX_UINT16 + 1
  {
    PlacedFree(c, avail);
    hide Free, Searched, Placed, WellFormed, Assigned;
    if TxCount(c) <= MAX_UINT16 + 1 {
      if c.shorttxids == [] {
        NothingSearched(avail);
      } else {
        var offs := SearchesEnd(avail, |c.shorttxids|);
        NumberedRight(avail, offs);
      }
    } else {
      LastSlotFree(c, avail);
      forall offs: seq<nat> | |offs| == |c.shorttxids|
        ensures !Assigned(avail, Numbered(offs))
      {
        if Assigned(avail, Numbered(offs)) {
          FreeIsAssigned(avail, Numbered(offs), |avail| - 1);
          assert false;
        }
      }
    }
  }

  lemma NothingSearched(avail: Slots)
    ensures Searched(avail, []) && Assigned(avail, Numbered([]))
  {
  }

  lemma NumberedRight(avail: Slots, offs: seq<nat>)
    requires |avail| <= MAX_UINT16 + 1 && forall k: nat | k < |offs| :: InOrder(avail, k, offs[k])
    ensures Assigned(avail, Numbered(offs))
  {
    hide Free;
    forall k: nat | k < |offs|
      ensures Numbered(offs)[k] == k + offs[k] && InOrder(avail, k, offs[k])
    {
    }
  }

  // A coinbase and 65,536 short ids: the number of the last slot wraps to that
  // of the coinbase.
  lemma LastSlotWraps(tx: Tx) returns (c: CompactBlock, placed: Slots, offs: seq<nat>)
    requires !tx.isNull
    ensures WellFormed(c) && Distinct(c.shorttxids) && c.prefilledtxn == [Prefilled(0, tx)] && Placed(c, 1, placed)
    ensures |offs| == |c.shorttxids| == MAX_UINT16 + 1 && Searched(placed, offs)
    ensures placed[0] == Some(tx) && Numbered(offs)[MAX_UINT16] == 0
  {
    c, placed := WideBlock(tx);
    hide Free, WellFormed, Placed, Distinct, Searched;
    offs := SearchesEnd(placed, |c.shorttxids|);
    OneInOrder(placed, MAX_UINT16, offs[MAX_UINT16], MAX_UINT16 + 1);
  }

  lemma WideBlock(tx: Tx) returns (c: CompactBlock, placed: Slots)
    requires !tx.isNull
    ensures WellFormed(c) && Distinct(c.shorttxids) && c.prefilledtxn == [Prefilled(0, tx)] && Placed(c, 1, placed)
    ensures |c.shorttxids| == MAX_UINT16 + 1 && |placed| == MAX_UINT16 + 2 && Free(placed, |placed|) == MAX_UINT16 + 1
    ensures placed[0] == Some(tx) && InOrder(placed, MAX_UINT16, 1)
  {
    c := CompactBlock(Some(0), seq(MAX_UINT16 + 1, i => i), [Prefilled(0, tx)]);
    placed := [Some(tx)] + seq(MAX_UINT16 + 1, _ => None);
    assert Position(c.prefilledtxn, 0) == 0;
    FreeAfterFirst(placed, MAX_UINT16 + 2);
    FreeAfterFirst(placed, MAX_UINT16 + 1);
    hide Free;
  }

  lemma OneInOrder(avail: Slots, k: nat, o: nat, q: nat)
    requires InOrder(avail, k, o) && k <= q && InOrder(avail, k, q - k)
    ensures k + o == q
  {
    hide Free;
    var p := k + o;
    if p < q {
      FreeStep(avail, p);
      FreeMonotone(avail, p + 1, q);
    } else if q < p {
      FreeStep(avail, q);
      FreeMonotone(avail, q + 1, p);
    }
  }

  // 65,536 prefilled transactions and a short id: all slots that its search can
  // look at are filled.
  lemma SearchWithoutEnd(tx: Tx, id: nat) returns (c: CompactBlock, placed: Slots)
    requires !tx.isNull
    ensures WellFormed(c) && c.shorttxids == [id] && |c.prefilledtxn| == MAX_UINT16 + 1 && Placed(c, MAX_UINT16 + 1, placed)
    ensures forall offs: seq<nat> | |offs| == 1 :: !Searched(placed, offs)
  {
    c := CompactBlock(Some(0), [id], seq(MAX_UINT16 + 1, _ => Prefilled(0, tx)));
    placed := seq(MAX_UINT16 + 1, _ => Some(tx)) + [None];
    PositionsDense(c.prefilledtxn, MAX_UINT16);
    FreeFull(placed, MAX_UINT16 + 1);
    assert Free(placed, MAX_UINT16 + 2) == 1;
    hide Free, Position;
    NeverEnds(c, placed);
  }

  lemma {:induction false} PositionsDense(pre: seq<Prefilled>, n: nat)
    requires n < |pre| && forall i: nat | i <= n :: pre[i].index == 0
    ensures forall i: nat | i <= n :: Position(pre, i) == i
  {
    if n > 0 {
      PositionsDense(pre, n - 1);
    }
  }

  lemma {:induction false} FreeFull(avail: Slots, k: nat)
    requires k <= |avail| && forall p: nat | p < k :: avail[p].Some?
    ensures Free(avail, k) == 0
  {
    if k > 0 {
      FreeFull(avail, k - 1);
    }
  }

  // Prefilled transactions do not reach beyond position 65,535.
  lemma LastSlotFree(c: CompactBlock, avail: Slots)
    requires WellFormed(c) && Placed(c, |c.prefilledtxn|, avail) && TxCount(c) > MAX_UINT16 + 1
    ensures |avail| == TxCount(c) && avail[|avail| - 1].None?
  {
    hide Free;
  }

  ghost function IdSet(ids: seq<nat>): set<nat> {
    set id | id in ids
  }

  // As many different short ids as short ids: no two are the same.
  lemma {:induction false} IdSetSize(ids: seq<nat>)
    ensures |IdSet(ids)| <= |ids| && (|IdSet(ids)| == |ids| <==> Distinct(ids))
  {
    if ids != [] {
      var n := |ids| - 1;
      var rest, id := ids[..n], ids[n];
      IdSetSize(rest);
      assert ids == rest + [id];
      if id in rest {
        var i :| 0 <= i < n && rest[i] == id;
        assert ids[i] == ids[n];
        assert IdSet(ids) == IdSet(rest);
      } else {
        assert IdSet(ids) == IdSet(rest) + {id};
        assert Distinct(ids) ==> Distinct(rest);
      }
    }
  }

  lemma KeysStart(ids: seq<nat>)
    ensures IdSet(ids[..0]) == {}
  {
  }

  lemma KeysNext(ids: seq<nat>, i: nat, m: map<nat, nat>, slot: nat)
    requires i < |ids| && m.Keys == IdSet(ids[..i])
    ensures m[ids[i] := slot].Keys == IdSet(ids[..i + 1])
  {
    assert ids[..i + 1] == ids[..i] + [ids[i]];
  }

  lemma KeysEnd(ids: seq<nat>, m: map<nat, nat>)
    requires m.Keys == IdSet(ids[..|ids|])
    ensures |m| == |ids| <==> Distinct(ids)
  {
    assert ids[..|ids|] == ids && |m| == |m.Keys|;
    IdSetSize(ids);
  }

  // -------------------------------------------------------------- matching

  /** What matching knows of a short id: whether it was met, and the transaction
      held for it. */
  datatype Match = Match(have: bool, content: Option<Tx>)

  // The first mempool transaction with a short id is taken, a second one makes
  // the short id useless.
  function PoolHit(m: Match, e: PoolTx): Match {
    if m.have then Match(true, None) else Match(true, Some(e.tx))
  }

  // An extra transaction does so only if it differs from the one held.
  function ExtraHit(m: Match, e: PoolTx): Match {
    if !m.have then Match(true, Some(e.tx))
    else if m.content.Some? && m.content.value.witnessHash != e.tx.witnessHash then Match(true, None)
    else m
  }

  ghost function PoolMatch(sid: ShortId, id: nat, pool: seq<PoolTx>): Match {
    if pool == [] then Match(false, None) else
    var m, e := PoolMatch(sid, id, pool[..|pool| - 1]), pool[|pool| - 1];
    if sid(e.hash) == id then PoolHit(m, e) else m
  }

  ghost function EntryMatch(sid: ShortId, id: nat, pool: seq<PoolTx>, extra: seq<PoolTx>): Match {
    if extra == [] then PoolMatch(sid, id, pool) else
    var m, e := EntryMatch(sid, id, pool, extra[..|extra| - 1]), extra[|extra| - 1];
    if sid(e.hash) == id then ExtraHit(m, e) else m
  }

  // Every short id stands as matching the entries so far demands.
  ghost predicate Followed(ids: seq<nat>, sid: ShortId, slots: seq<nat>, avail: Slots, have: seq<bool>,
                           pool: seq<PoolTx>, extra: seq<PoolTx>) {
    && |slots| == |ids| && |have| == |avail|
    && forall k: nat | k < |slots| ::
         slots[k] < |avail| && Match(have[slots[k]], avail[slots[k]]) == EntryMatch(sid, ids[k], pool, extra)
  }

  // Only the slot of one short id changes, to what a further entry demands.
  ghost predicate Rematched(m: map<nat, nat>, id: nat, avail: Slots, have: seq<bool>, hit: Match, avail': Slots, have': seq<bool>) {
    && |have| == |avail|
    && if id in m then m[id] < |avail| && avail' == avail[m[id] := hit.content] && have' == have[m[id] := hit.have]
       else avail' == avail && have' == have
  }

  lemma FollowsNext(ids: seq<nat>, sid: ShortId, placed: Slots, slots: seq<nat>, m: map<nat, nat>, avail: Slots, have: seq<bool>,
                    pool: seq<PoolTx>, extra: seq<PoolTx>, pool': seq<PoolTx>, extra': seq<PoolTx>,
                    id: nat, hit: Match, avail': Slots, have': seq<bool>)
    requires Assigned(placed, slots) && Mapped(ids, slots, m) && |m| == |slots| == |ids|
    requires Followed(ids, sid, slots, avail, have, pool, extra) && Rematched(m, id, avail, have, hit, avail', have')
    requires forall k: nat | k < |ids| ::
               EntryMatch(sid, ids[k], pool', extra') == if ids[k] == id then hit else EntryMatch(sid, ids[k], pool, extra)
    ensures Followed(ids, sid, slots, avail', have', pool', extra')
  {
    hide Free, Assigned, EntryMatch;
    forall k: nat | k < |slots|
      ensures slots[k] < |avail'| && Match(have'[slots[k]], avail'[slots[k]]) == EntryMatch(sid, ids[k], pool', extra')
    {
      assert ids[k] in m && m[ids[k]] == slots[k];
      if id in m && ids[k] != id {
        var j := SlotOf(ids, slots, m, id);
        if j < k {
          SlotsGrow(placed, slots, j, k);
        } else {
          SlotsGrow(placed, slots, k, j);
        }
      }
    }
  }

  lemma PoolFollows(ids: seq<nat>, sid: ShortId, placed: Slots, slots: seq<nat>, m: map<nat, nat>, avail: Slots, have: seq<bool>,
                    pool: seq<PoolTx>, e: PoolTx, avail': Slots, have': seq<bool>)
    requires Assigned(placed, slots) && Mapped(ids, slots, m) && |m| == |slots| == |ids|
    requires Followed(ids, sid, slots, avail, have, pool, [])
    requires var id := sid(e.hash);
             && (id in m ==> m[id] < |avail|)
             && Rematched(m, id, avail, have, if id in m then PoolHit(Match(have[m[id]], avail[m[id]]), e) else Match(false, None), avail', have')
    ensures Followed(ids, sid, slots, avail', have', pool + [e], [])
  {
    hide Free, Assigned;
    var id := sid(e.hash);
    var hit := if id in m then PoolHit(Match(have[m[id]], avail[m[id]]), e) else Match(false, None);
    assert (pool + [e])[..|pool|] == pool;
    forall k: nat | k < |ids|
      ensures EntryMatch(sid, ids[k], pool + [e], []) == if ids[k] == id then hit else EntryMatch(sid, ids[k], pool, [])
    {
      assert ids[k] in m && m[ids[k]] == slots[k];
    }
    FollowsNext(ids, sid, placed, slots, m, avail, have, pool, [], pool + [e], [], id, hit, avail', have');
  }

  lemma ExtraFollows(ids: seq<nat>, sid: ShortId, placed: Slots, slots: seq<nat>, m: map<nat, nat>, avail: Slots, have: seq<bool>,
                     pool: seq<PoolTx>, extra: seq<PoolTx>, e: PoolTx, avail': Slots, have': seq<bool>)
    requires Assigned(placed, slots) && Mapped(ids, slots, m) && |m| == |slots| == |ids|
    requires Followed(ids, sid, slots, avail, have, pool, extra)
    requires var id := sid(e.hash);
             && (id in m ==> m[id] < |avail|)
             && Rematched(m, id, avail, have, if id in m then ExtraHit(Match(have[m[id]], avail[m[id]]), e) else Match(false, None), avail', have')
    ensures Followed(ids, sid, slots, avail', have', pool, extra + [e])
  {
    hide Free, Assigned;
    var id := sid(e.hash);
    var hit := if id in m then ExtraHit(Match(have[m[id]], avail[m[id]]), e) else Match(false, None);
    assert (extra + [e])[..|extra|] == extra;
    forall k: nat | k < |ids|
      ensures EntryMatch(sid, ids[k], pool, extra + [e]) == if ids[k] == id then hit else EntryMatch(sid, ids[k], pool, extra)
    {
      assert ids[k] in m && m[ids[k]] == slots[k];
    }
    FollowsNext(ids, sid, placed, slots, m, avail, have, pool, extra, pool, extra + [e], id, hit, avail', have');
  }

  // ------------------------------------------------------ what matching finds

  predicate Hits(sid: ShortId, id: nat, e: PoolTx) {
    sid(e.hash) == id
  }

  // Some entry has the short id, no two of the mempool do, and all that do are
  // the same transaction.
  ghost predicate KnownOnce(sid: ShortId, id: nat, pool: seq<PoolTx>, extra: seq<PoolTx>) {
    && (exists e :: e in pool + extra && Hits(sid, id, e))
    && (forall i, j | 0 <= i < j < |pool| :: !(Hits(sid, id, pool[i]) && Hits(sid, id, pool[j])))
    && (forall e, f | e in pool + extra && f in pool + extra && Hits(sid, id, e) && Hits(sid, id, f) ::
          e.tx.witnessHash == f.tx.witnessHash)
  }

  lemma {:induction false} PoolMeets(sid: ShortId, id: nat, pool: seq<PoolTx>)
    ensures PoolMatch(sid, id, pool).have <==> exists e :: e in pool && Hits(sid, id, e)
    ensures var c := PoolMatch(sid, id, pool).content;
            c.Some? ==> exists e :: e in pool && Hits(sid, id, e) && e.tx == c.value
  {
    if pool != [] {
      var n := |pool| - 1;
      PoolMeets(sid, id, pool[..n]);
      assert pool == pool[..n] + [pool[n]];
      assert pool[n] in pool;
      assert Hits(sid, id, pool[n]) <==> sid(pool[n].hash) == id;
      if e :| e in pool[..n] && Hits(sid, id, e) {
        assert e in pool;
      }
    }
  }

  lemma {:induction false} PoolOnce(sid: ShortId, id: nat, pool: seq<PoolTx>)
    requires forall i, j | 0 <= i < j < |pool| :: !(Hits(sid, id, pool[i]) && Hits(sid, id, pool[j]))
    ensures PoolMatch(sid, id, pool).have ==> PoolMatch(sid, id, pool).content.Some?
  {
    if pool != [] {
      var n := |pool| - 1;
      PoolOnce(sid, id, pool[..n]);
      PoolMeets(sid, id, pool[..n]);
    }
  }

  lemma {:induction false} ExtraSame(sid: ShortId, id: nat, pool: seq<PoolTx>, extra: seq<PoolTx>, w: nat)
    requires var p := PoolMatch(sid, id, pool); p.have ==> p.content.Some? && p.content.value.witnessHash == w
    requires forall e | e in extra && Hits(sid, id, e) :: e.tx.witnessHash == w
    ensures var r := EntryMatch(sid, id, pool, extra);
            && (r.have ==> r.content.Some? && r.content.value.witnessHash == w)
            && (r.have <==> PoolMatch(sid, id, pool).have || exists e :: e in extra && Hits(sid, id, e))
  {
    if extra != [] {
      var n := |extra| - 1;
      assert forall e | e in extra[..n] :: e in extra;
      ExtraSame(sid, id, pool, extra[..n], w);
      assert extra == extra[..n] + [extra[n]];
      assert extra[n] in extra;
      assert Hits(sid, id, extra[n]) <==> sid(extra[n].hash) == id;
      if e :| e in extra[..n] && Hits(sid, id, e) {
        assert e in extra;
      }
    }
  }

  // An early end of the mempool scan does no harm: then the short id has a
  // transaction already, and only a different one could take it away.
  lemma KnownIsFound(sid: ShortId, id: nat, pool: seq<PoolTx>, extra: seq<PoolTx>, seen: nat)
    requires KnownOnce(sid, id, pool, extra) && seen <= |pool|
    requires seen < |pool| ==> PoolMatch(sid, id, pool[..seen]).content.Some?
    ensures EntryMatch(sid, id, pool[..seen], extra).content.Some?
  {
    hide PoolMatch, EntryMatch;
    var part := pool[..seen];
    var known :| known in pool + extra && Hits(sid, id, known);
    var w := known.tx.witnessHash;
    PoolMeets(sid, id, part);
    PoolOnce(sid, id, part);
    assert forall e | e in part :: e in pool + extra;
    assert forall e | e in extra :: e in pool + extra;
    ExtraSame(sid, id, part, extra, w);
    ContentMet(sid, id, part);
    if seen == |pool| {
      assert part == pool;
    }
  }

  lemma {:induction false} ContentMet(sid: ShortId, id: nat, pool: seq<PoolTx>)
    ensures PoolMatch(sid, id, pool).content.Some? ==> PoolMatch(sid, id, pool).have
  {
    if pool != [] {
      ContentMet(sid, id, pool[..|pool| - 1]);
    }
  }

  lemma {:induction false} PoolOnly(sid: ShortId, id: nat, pool: seq<PoolTx>)
    requires PoolMatch(sid, id, pool).content.Some?
    ensures forall i, j | 0 <= i < j < |pool| :: !(Hits(sid, id, pool[i]) && Hits(sid, id, pool[j]))
    ensures forall e | e in pool && Hits(sid, id, e) :: e.tx == PoolMatch(sid, id, pool).content.value
  {
    var n := |pool| - 1;
    var rest := pool[..n];
    assert pool == rest + [pool[n]];
    assert Hits(sid, id, pool[n]) <==> sid(pool[n].hash) == id;
    PoolMeets(sid, id, rest);
    if Hits(sid, id, pool[n]) {
      forall i | 0 <= i < n
        ensures !Hits(sid, id, pool[i])
      {
        assert pool[i] == rest[i] && rest[i] in rest;
      }
    } else {
      PoolOnly(sid, id, rest);
    }
  }

  lemma {:induction false} ExtraOnly(sid: ShortId, id: nat, pool: seq<PoolTx>, extra: seq<PoolTx>)
    requires EntryMatch(sid, id, pool, extra).content.Some?
    ensures PoolMatch(sid, id, pool).have ==>
              PoolMatch(sid, id, pool).content == EntryMatch(sid, id, pool, extra).content
    ensures forall e | e in extra && Hits(sid, id, e) ::
              e.tx.witnessHash == EntryMatch(sid, id, pool, extra).content.value.witnessHash
    ensures PoolMatch(sid, id, pool).have || exists e :: e in extra && Hits(sid, id, e)
  {
    hide PoolMatch;
    if extra == [] {
      ContentMet(sid, id, pool);
    } else {
      var n := |extra| - 1;
      var rest := extra[..n];
      assert extra == rest + [extra[n]] && extra[n] in extra;
      assert Hits(sid, id, extra[n]) <==> sid(extra[n].hash) == id;
      ExtraMeets(sid, id, pool, rest);
      if EntryMatch(sid, id, pool, rest).content.Some? {
        ExtraOnly(sid, id, pool, rest);
      }
    }
  }

  lemma {:induction false} ExtraMeets(sid: ShortId, id: nat, pool: seq<PoolTx>, extra: seq<PoolTx>)
    ensures EntryMatch(sid, id, pool, extra).have <==>
              PoolMatch(sid, id, pool).have || exists e :: e in extra && Hits(sid, id, e)
    ensures EntryMatch(sid, id, pool, extra).content.Some? ==> EntryMatch(sid, id, pool, extra).have
  {
    hide PoolMatch;
    if extra == [] {
      ContentMet(sid, id, pool);
    } else {
      var n := |extra| - 1;
      ExtraMeets(sid, id, pool, extra[..n]);
      assert extra == extra[..n] + [extra[n]] && extra[n] in extra;
      assert Hits(sid, id, extra[n]) <==> sid(extra[n].hash) == id;
      if e :| e in extra[..n] && Hits(sid, id, e) {
        assert e in extra;
      }
    }
  }

  // Matching leaves a transaction exactly for what is known once.
  lemma FoundExactly(sid: ShortId, id: nat, pool: seq<PoolTx>, extra: seq<PoolTx>)
    ensures EntryMatch(sid, id, pool, extra).content.Some? <==> KnownOnce(sid, id, pool, extra)
  {
    hide PoolMatch, EntryMatch;
    if EntryMatch(sid, id, pool, extra).content.Some? {
      ExtraOnly(sid, id, pool, extra);
      PoolMeets(sid, id, pool);
      if PoolMatch(sid, id, pool).have {
        PoolOnly(sid, id, pool);
        var e :| e in pool && Hits(sid, id, e);
        assert e in pool + extra;
      } else {
        var e :| e in extra && Hits(sid, id, e);
        assert e in pool + extra;
        assert forall i: nat | i < |pool| :: pool[i] in pool && !Hits(sid, id, pool[i]);
      }
    } else if KnownOnce(sid, id, pool, extra) {
      assert pool[..|pool|] == pool;
      KnownIsFound(sid, id, pool, extra, |pool|);
    }
  }

  lemma AvailableExactly(ids: seq<nat>, sid: ShortId, slots: seq<nat>, avail: Slots, pool: seq<PoolTx>, extra: seq<PoolTx>)
    requires Available(ids, sid, slots, avail, pool, extra)
    ensures forall k: nat | k < |slots| :: avail[slots[k]].Some? <==> KnownOnce(sid, ids[k], pool, extra)
  {
    hide KnownOnce, EntryMatch;
    forall k: nat | k < |slots|
      ensures avail[slots[k]].Some? <==> KnownOnce(sid, ids[k], pool, extra)
    {
      FoundExactly(sid, ids[k], pool, extra);
    }
  }

  // The slots hold what matching leaves for their short ids.
  ghost predicate Available(ids: seq<nat>, sid: ShortId, slots: seq<nat>, avail: Slots, pool: seq<PoolTx>, extra: seq<PoolTx>) {
    && |slots| == |ids|
    && forall k: nat | k < |slots| :: slots[k] < |avail| && avail[slots[k]] == EntryMatch(sid, ids[k], pool, extra).content
  }

  // What is known under one short id only is available.
  ghost predicate KnownAvailable(ids: seq<nat>, sid: ShortId, slots: seq<nat>, avail: Slots, pool: seq<PoolTx>, extra: seq<PoolTx>) {
    && |slots| == |ids|
    && forall k: nat | k < |slots| && KnownOnce(sid, ids[k], pool, extra) :: slots[k] < |avail| && avail[slots[k]].Some?
  }

  lemma FoundAvailable(ids: seq<nat>, sid: ShortId, slots: seq<nat>, avail: Slots, have: seq<bool>, avail': Slots, have': seq<bool>,
                       pool: seq<PoolTx>, extra: seq<PoolTx>, seenPool: nat, seenExtra: nat)
    requires seenPool <= |pool| && seenExtra <= |extra|
    requires Followed(ids, sid, slots, avail, have, pool[..seenPool], [])
    requires Followed(ids, sid, slots, avail', have', pool[..seenPool], extra[..seenExtra])
    requires seenPool == |pool| || forall p: nat | p < |avail| :: avail[p].Some?
    requires seenExtra == |extra| || forall p: nat | p < |avail'| :: avail'[p].Some?
    ensures Available(ids, sid, slots, avail', pool[..seenPool], extra[..seenExtra])
    ensures KnownAvailable(ids, sid, slots, avail', pool, extra)
  {
    hide PoolMatch, KnownOnce;
    forall k: nat | k < |slots| && KnownOnce(sid, ids[k], pool, extra)
      ensures slots[k] < |avail'| && avail'[slots[k]].Some?
    {
      assert EntryMatch(sid, ids[k], pool[..seenPool], []) == PoolMatch(sid, ids[k], pool[..seenPool]);
      KnownIsFound(sid, ids[k], pool, extra, seenPool);
      if seenExtra == |extra| {
        assert extra[..seenExtra] == extra;
      }
    }
  }

  lemma {:induction false} FreeZero(avail: Slots, k: nat)
    requires k <= |avail| && Free(avail, k) == 0
    ensures forall p: nat | p < k :: avail[p].Some?
  {
    if k > 0 {
      FreeZero(avail, k - 1);
    }
  }

  // With as many matches as short ids every slot is filled.
  lemma AllMatched(ids: seq<nat>, sid: ShortId, placed: Slots, slots: seq<nat>, m: map<nat, nat>,
                   avail: Slots, have: seq<bool>, count: nat, entries: seq<PoolTx>)
    requires Matching(ids, sid, placed, slots, m, avail, have, count, entries) && count == |m|
    ensures forall p: nat | p < |avail| :: avail[p].Some?
  {
    hide Mapped, Assigned;
    FreeZero(avail, |avail|);
  }

  ghost predicate HasEntry(entries: seq<PoolTx>, sid: ShortId, id: nat, tx: Tx) {
    exists e :: e in entries && sid(e.hash) == id && e.tx == tx
  }

  // What a slot holds besides the prefilled comes from an entry with its short id.
  ghost predicate Sound(ids: seq<nat>, sid: ShortId, placed: Slots, slots: seq<nat>, avail: Slots, entries: seq<PoolTx>) {
    && |avail| == |placed| && |slots| == |ids| && Assigned(placed, slots) && Free(placed, |placed|) == |slots|
    && (forall p: nat | p < |placed| && placed[p].Some? :: avail[p] == placed[p])
    && (forall k: nat | k < |slots| && avail[slots[k]].Some? :: HasEntry(entries, sid, ids[k], avail[slots[k]].value))
  }

  lemma SoundMore(ids: seq<nat>, sid: ShortId, placed: Slots, slots: seq<nat>, avail: Slots, entries: seq<PoolTx>, more: seq<PoolTx>)
    requires Sound(ids, sid, placed, slots, avail, entries) && forall e | e in entries :: e in more
    ensures Sound(ids, sid, placed, slots, avail, more)
  {
    hide Free;
    forall k: nat | k < |slots| && avail[slots[k]].Some?
      ensures HasEntry(more, sid, ids[k], avail[slots[k]].value)
    {
      assert HasEntry(entries, sid, ids[k], avail[slots[k]].value);
    }
  }

  lemma SoundSet(ids: seq<nat>, sid: ShortId, placed: Slots, slots: seq<nat>, avail: Slots, entries: seq<PoolTx>, k: nat, content: Option<Tx>)
    requires Sound(ids, sid, placed, slots, avail, entries) && k < |slots|
    requires content.Some? ==> HasEntry(entries, sid, ids[k], content.value)
    ensures slots[k] < |avail| && Sound(ids, sid, placed, slots, avail[slots[k] := content], entries)
  {
    hide Free, HasEntry;
    assert placed[slots[k]].None?;
    forall j: nat | j < |slots|
      ensures slots[j] < |avail| && (slots[j] == slots[k] ==> j == k)
    {
      if j < k {
        SlotsGrow(placed, slots, j, k);
      } else if k < j {
        SlotsGrow(placed, slots, k, j);
      }
    }
  }

  // The matching so far: contents, marks and the count of matched slots.
  ghost predicate Matching(ids: seq<nat>, sid: ShortId, placed: Slots, slots: seq<nat>, m: map<nat, nat>,
                           avail: Slots, have: seq<bool>, count: nat, entries: seq<PoolTx>) {
    && Sound(ids, sid, placed, slots, avail, entries) && Mapped(ids, slots, m) && |m| == |slots|
    && |have| == |avail| && count + Free(avail, |avail|) == |slots|
    && (forall p: nat | p < |avail| && placed[p].None? && !have[p] :: avail[p].None?)
  }

  lemma SlotOf(ids: seq<nat>, slots: seq<nat>, m: map<nat, nat>, id: nat) returns (k: nat)
    requires Mapped(ids, slots, m) && |m| == |slots| == |ids| && id in m
    ensures k < |slots| && ids[k] == id && m[id] == slots[k]
  {
    assert id in ids[..|slots|];
    k :| k < |slots| && ids[k] == id;
  }

  // A first match fills the slot, and is counted.
  lemma MatchFills(ids: seq<nat>, sid: ShortId, placed: Slots, slots: seq<nat>, m: map<nat, nat>,
                   avail: Slots, have: seq<bool>, count: nat, entries: seq<PoolTx>, e: PoolTx)
    requires Matching(ids, sid, placed, slots, m, avail, have, count, entries) && e in entries && sid(e.hash) in m
    requires m[sid(e.hash)] < |avail| && !have[m[sid(e.hash)]]
    ensures var p := m[sid(e.hash)];
            Matching(ids, sid, placed, slots, m, avail[p := Some(e.tx)], have[p := true], count + 1, entries)
  {
    hide Free, Assigned, Mapped;
    var k := SlotOf(ids, slots, m, sid(e.hash));
    var p := slots[k];
    AssignedAt(placed, slots, k);
    assert avail[p].None?;
    assert HasEntry(entries, sid, ids[k], e.tx);
    SoundSet(ids, sid, placed, slots, avail, entries, k, Some(e.tx));
    FreeFilled(avail, p, e.tx, |avail|);
  }

  // A second match empties it again.
  lemma MatchEmpties(ids: seq<nat>, sid: ShortId, placed: Slots, slots: seq<nat>, m: map<nat, nat>,
                     avail: Slots, have: seq<bool>, count: nat, entries: seq<PoolTx>, id: nat)
    requires Matching(ids, sid, placed, slots, m, avail, have, count, entries) && id in m
    requires m[id] < |avail| && avail[m[id]].Some?
    ensures count > 0 && Matching(ids, sid, placed, slots, m, avail[m[id] := None], have, count - 1, entries)
  {
    hide Free, Assigned, Mapped;
    var k := SlotOf(ids, slots, m, id);
    var p := slots[k];
    AssignedAt(placed, slots, k);
    SoundSet(ids, sid, placed, slots, avail, entries, k, None);
    FreeEmptied(avail, p);
    FreeMonotone(avail[p := None], 0, |avail|);
    SoundCount(ids, sid, placed, slots, avail[p := None], entries);
  }

  lemma AssignedAt(placed: Slots, slots: seq<nat>, k: nat)
    requires Assigned(placed, slots) && k < |slots|
    ensures slots[k] < |placed| && placed[slots[k]].None?
  {
  }

  // No more slots are free than before the matching.
  lemma {:induction false} FreeAtMost(a: Slots, b: Slots, k: nat)
    requires k <= |a| == |b| && forall p: nat | p < |a| && a[p].Some? :: b[p].Some?
    ensures Free(b, k) <= Free(a, k)
  {
    if k > 0 {
      FreeAtMost(a, b, k - 1);
    }
  }

  lemma SoundCount(ids: seq<nat>, sid: ShortId, placed: Slots, slots: seq<nat>, avail: Slots, entries: seq<PoolTx>)
    requires Sound(ids, sid, placed, slots, avail, entries)
    ensures Free(avail, |avail|) <= |slots|
  {
    hide Free, Assigned;
    FreeAtMost(placed, avail, |avail|);
  }

  lemma MatchingMore(ids: seq<nat>, sid: ShortId, placed: Slots, slots: seq<nat>, m: map<nat, nat>,
                     avail: Slots, have: seq<bool>, count: nat, entries: seq<PoolTx>, more: seq<PoolTx>)
    requires Matching(ids, sid, placed, slots, m, avail, have, count, entries) && forall e | e in entries :: e in more
    ensures Matching(ids, sid, placed, slots, m, avail, have, count, more)
  {
    hide Free, Assigned, Mapped;
    SoundMore(ids, sid, placed, slots, avail, entries, more);
  }

  // ------------------------------------------------------------- one entry

  ghost predicate InRange(m: map<nat, nat>, n: nat) {
    forall id | id in m :: m[id] < n
  }

  // What matching starts from: slots and short ids correspond one to one.
  ghost predicate SlotsKnown(ids: seq<nat>, placed: Slots, slots: seq<nat>, m: map<nat, nat>) {
    |slots| == |ids| == |m| && Assigned(placed, slots) && Mapped(ids, slots, m) && Free(placed, |placed|) == |slots|
  }

  // Slots among the first k that matching has filled.
  ghost function Held(avail: Slots, have: seq<bool>, k: nat): nat
    requires k <= |avail| == |have|
  {
    if k == 0 then 0 else Held(avail, have, k - 1) + if have[k - 1] && avail[k - 1].Some? then 1 else 0
  }

  ghost predicate Counted(avail: Slots, have: seq<bool>, count: nat) {
    |avail| == |have| && count == Held(avail, have, |avail|)
  }

  lemma {:induction false} NothingHeld(avail: Slots, have: seq<bool>, k: nat)
    requires k <= |avail| == |have| && forall p: nat | p < |have| :: !have[p]
    ensures Held(avail, have, k) == 0
  {
    if k > 0 {
      NothingHeld(avail, have, k - 1);
    }
  }

  lemma {:induction false} HeldUpTo(avail: Slots, have: seq<bool>, p: nat, content: Option<Tx>, k: nat)
    requires p < |avail| == |have| && k <= |avail|
    ensures Held(avail[p := content], have[p := true], k) + (if p < k && have[p] && avail[p].Some? then 1 else 0) ==
            Held(avail, have, k) + if p < k && content.Some? then 1 else 0
  {
    if k > 0 {
      HeldUpTo(avail, have, p, content, k - 1);
    }
  }

  // The count follows the slots, and is positive where one can be emptied.
  lemma HeldChange(avail: Slots, have: seq<bool>, p: nat, tx: Tx)
    requires p < |avail| == |have|
    ensures !have[p] ==> Held(avail[p := Some(tx)], have[p := true], |avail|) == Held(avail, have, |avail|) + 1
    ensures have[p] && avail[p].Some? ==> Held(avail[p := None], have, |avail|) == Held(avail, have, |avail|) - 1
  {
    HeldUpTo(avail, have, p, Some(tx), |avail|);
    HeldUpTo(avail, have, p, None, |avail|);
    assert have[p] ==> have[p := true] == have;
  }

  // One round of matching with a mempool transaction.
  lemma PoolRound(ids: seq<nat>, sid: ShortId, placed: Slots, slots: seq<nat>, m: map<nat, nat>,
                  avail: Slots, have: seq<bool>, count: nat, pool: seq<PoolTx>, i: nat, avail': Slots, have': seq<bool>, count': nat)
    requires i < |pool| && Matching(ids, sid, placed, slots, m, avail, have, count, pool[..i])
    requires Followed(ids, sid, slots, avail, have, pool[..i], [])
    requires var id := sid(pool[i].hash);
             if id in m then
               var p := m[id];
               && p < |avail| == |have|
               && if !have[p] then avail' == avail[p := Some(pool[i].tx)] && have' == have[p := true] && count' == count + 1
                  else if avail[p].Some? then avail' == avail[p := None] && have' == have && count' == count - 1
                  else avail' == avail && have' == have && count' == count
             else avail' == avail && have' == have && count' == count
    ensures Matching(ids, sid, placed, slots, m, avail', have', count', pool[..i + 1])
    ensures Followed(ids, sid, slots, avail', have', pool[..i + 1], [])
  {
    hide Free, Assigned, Mapped, Matching, Followed;
    var entries, id := pool[..i + 1], sid(pool[i].hash);
    assert entries == pool[..i] + [pool[i]];
    MatchingMore(ids, sid, placed, slots, m, avail, have, count, pool[..i], entries);
    if id in m {
      if !have[m[id]] {
        MatchFills(ids, sid, placed, slots, m, avail, have, count, entries, pool[i]);
      } else if avail[m[id]].Some? {
        MatchEmpties(ids, sid, placed, slots, m, avail, have, count, entries, id);
      }
    }
    MatchingSized(ids, sid, placed, slots, m, avail, have, count, entries);
    PoolFollows(ids, sid, placed, slots, m, avail, have, pool[..i], pool[i], avail', have');
  }

  // One round with an extra transaction.
  lemma ExtraRound(ids: seq<nat>, sid: ShortId, placed: Slots, slots: seq<nat>, m: map<nat, nat>,
                   avail: Slots, have: seq<bool>, count: nat, pool: seq<PoolTx>, part: seq<PoolTx>, extra: seq<PoolTx>, i: nat,
                   avail': Slots, have': seq<bool>, count': nat)
    requires i < |extra| && Matching(ids, sid, placed, slots, m, avail, have, count, pool + extra[..i])
    requires Followed(ids, sid, slots, avail, have, part, extra[..i])
    requires var id := sid(extra[i].hash);
             if id in m then
               var p := m[id];
               && p < |avail| == |have|
               && if !have[p] then avail' == avail[p := Some(extra[i].tx)] && have' == have[p := true] && count' == count + 1
                  else if avail[p].Some? && avail[p].value.witnessHash != extra[i].tx.witnessHash
                  then avail' == avail[p := None] && have' == have && count' == count - 1
                  else avail' == avail && have' == have && count' == count
             else avail' == avail && have' == have && count' == count
    ensures Matching(ids, sid, placed, slots, m, avail', have', count', pool + extra[..i + 1])
    ensures Followed(ids, sid, slots, avail', have', part, extra[..i + 1])
  {
    hide Free, Assigned, Mapped, Matching, Followed;
    var entries, id := pool + extra[..i + 1], sid(extra[i].hash);
    assert extra[..i + 1] == extra[..i] + [extra[i]];
    MatchingMore(ids, sid, placed, slots, m, avail, have, count, pool + extra[..i], entries);
    if id in m {
      if !have[m[id]] {
        MatchFills(ids, sid, placed, slots, m, avail, have, count, entries, extra[i]);
      } else if avail[m[id]].Some? && avail[m[id]].value.witnessHash != extra[i].tx.witnessHash {
        MatchEmpties(ids, sid, placed, slots, m, avail, have, count, entries, id);
      }
    }
    MatchingSized(ids, sid, placed, slots, m, avail, have, count, entries);
    ExtraFollows(ids, sid, placed, slots, m, avail, have, part, extra[..i], extra[i], avail', have');
  }

  // The first short ids have been given their slot numbers.
  ghost predicate Numbering(avail: Slots, ids: seq<nat>, offs: seq<nat>, m: map<nat, nat>) {
    && |offs| <= |ids| && Searched(avail, offs) && Mapped(ids, Numbered(offs), m) && m.Keys == IdSet(ids[..|offs|])
    && forall k: nat | k < |offs| :: InOrder(avail, k, offs[k])
  }

  lemma NumberingStarts(avail: Slots, ids: seq<nat>)
    ensures Numbering(avail, ids, [], map[])
  {
    assert Numbered([]) == [];
    NothingMapped(ids);
    KeysStart(ids);
  }

  lemma NumberingStart(avail: Slots, ids: seq<nat>, offs: seq<nat>, m: map<nat, nat>)
    requires Numbering(avail, ids, offs, m)
    ensures var o := StartOf(offs, |offs|); |offs| + o <= |avail| && Free(avail, |offs| + o) == |offs|
  {
    hide Free, InOrder, Searched, Mapped, IdSet;
    SearchStart(avail, |offs|, offs);
  }

  lemma NumberingNext(avail: Slots, ids: seq<nat>, offs: seq<nat>, m: map<nat, nat>, o: nat)
    requires Numbering(avail, ids, offs, m) && |offs| < |ids|
    requires Finds(avail, |offs|, StartOf(offs, |offs|), o) && InOrder(avail, |offs|, o)
    ensures Numbering(avail, ids, offs + [o], m[ids[|offs|] := Wrap16(|offs| + o)])
  {
    hide Free, Finds, InOrder, Mapped, IdSet, Searched;
    var slot := Wrap16(|offs| + o);
    SearchedNext(avail, offs, o);
    MappedNext(ids, Numbered(offs), m, slot);
    KeysNext(ids, |offs|, m, slot);
  }

  lemma NumberingEnds(avail: Slots, c: CompactBlock, tooFull: nat -> bool, offs: seq<nat>, m: map<nat, nat>)
    requires Numbering(avail, c.shorttxids, offs, m) && |offs| == |c.shorttxids|
    requires forall k: nat | k < |offs| :: !tooFull(k)
    ensures |m| == |c.shorttxids| <==> Startable(c, tooFull)
    ensures Searched(avail, offs) && Mapped(c.shorttxids, Numbered(offs), m)
  {
    hide Free, InOrder, Mapped, IdSet, Searched, Distinct;
    KeysEnd(c.shorttxids, m);
  }

  lemma NotStartable(c: CompactBlock, tooFull: nat -> bool, k: nat)
    requires k < |c.shorttxids| && tooFull(k)
    ensures !Startable(c, tooFull)
  {
  }

  lemma SearchedNext(avail: Slots, offs: seq<nat>, o: nat)
    requires Searched(avail, offs) && Finds(avail, |offs|, StartOf(offs, |offs|), o)
    ensures Searched(avail, offs + [o]) && Numbered(offs + [o]) == Numbered(offs) + [Wrap16(|offs| + o)]
  {
    hide Finds;
    forall k: nat | k <= |offs|
      ensures Finds(avail, k, StartOf(offs + [o], k), (offs + [o])[k])
    {
      assert StartOf(offs + [o], k) == StartOf(offs, k);
    }
  }

  lemma NumberInRange(avail: Slots, offs: seq<nat>, k: nat)
    requires k < |offs| && InOrder(avail, k, offs[k])
    ensures Numbered(offs)[k] < |avail|
  {
    hide Free;
    assert Wrap16(k + offs[k]) <= k + offs[k];
  }

  // Slot numbers are within the block, and with at most 65,536 transactions the
  // right ones.
  lemma NumbersInRange(c: CompactBlock, placed: Slots, offs: seq<nat>, m: map<nat, nat>)
    requires Placed(c, |c.prefilledtxn|, placed) && (c.shorttxids == [] || |c.prefilledtxn| <= MAX_UINT16)
    requires Searched(placed, offs) && |offs| == |c.shorttxids| == |m| && Mapped(c.shorttxids, Numbered(offs), m)
    ensures |placed| == TxCount(c) && InRange(m, |placed|)
    ensures TxCount(c) <= MAX_UINT16 + 1 ==> SlotsKnown(c.shorttxids, placed, Numbered(offs), m)
  {
    PlacedFree(c, placed);
    hide Free, Placed, Searched, Assigned, Mapped, InOrder;
    if c.shorttxids != [] {
      SearchedIsInOrder(placed, offs, |offs|);
    }
    forall id | id in m
      ensures m[id] < |placed|
    {
      var k := SlotOf(c.shorttxids, Numbered(offs), m, id);
      NumberInRange(placed, offs, k);
    }
    if TxCount(c) <= MAX_UINT16 + 1 {
      NumberedRight(placed, offs);
    }
  }

  class PartiallyDownloadedBlock {
    var txnAvailable: Slots
    var mempoolCount: nat
    var header: Option<nat>

    constructor ()
      ensures txnAvailable == [] && mempoolCount == 0 && header == None
    {
      txnAvailable, mempoolCount, header := [], 0, None;
    }

    // Puts the prefilled transactions where they belong.
    method PlacePrefilled(c: CompactBlock) returns (ok: bool)
      modifies this`txnAvailable
      ensures ok <==> PrefilledOk(c, |c.prefilledtxn|)
      ensures ok ==> Placed(c, |c.prefilledtxn|, txnAvailable)
    {
      hide Free, Placed;
      txnAvailable := seq(TxCount(c), _ => None);
      NothingPlaced(c, txnAvailable);
      var lastprefilledindex := -1;
      for i := 0 to |c.prefilledtxn|
        invariant lastprefilledindex == if i == 0 then -1 else Position(c.prefilledtxn, i - 1)
        invariant PrefilledOk(c, i) && Placed(c, i, txnAvailable)
      {
        if c.prefilledtxn[i].tx.isNull {
          return false;
        }
        lastprefilledindex := lastprefilledindex + c.prefilledtxn[i].index + 1;
        if lastprefilledindex > MAX_UINT16 {
          return false;
        }
        if lastprefilledindex > |c.shorttxids| + i {
          return false;
        }
        PlacedNext(c, i, txnAvailable);
        txnAvailable := txnAvailable[lastprefilledindex := Some(c.prefilledtxn[i].tx)];
      }
      ok := true;
    }

    // Moves on to the next free slot.  The offset has 16 bits.
    method SkipFilled(i: nat, offset: nat) returns (indexOffset: nat)
      requires i + offset <= |txnAvailable| && Free(txnAvailable, i + offset) == i < Free(txnAvailable, |txnAvailable|)
      requires offset <= MAX_UINT16 && |txnAvailable| - Free(txnAvailable, |txnAvailable|) <= MAX_UINT16
      ensures indexOffset <= MAX_UINT16 && Finds(txnAvailable, i, offset, indexOffset) && InOrder(txnAvailable, i, indexOffset)
    {
      hide Free;
      indexOffset := offset;
      ghost var n := 0;
      while txnAvailable[i + indexOffset].Some?
        invariant indexOffset == offset + n <= MAX_UINT16
        invariant i + indexOffset < |txnAvailable| && Free(txnAvailable, i + indexOffset) == i
        invariant forall s: nat | s < n :: FilledSlot(txnAvailable, Visited(i, offset, s))
        decreases |txnAvailable| - indexOffset
      {
        FreeSkip(txnAvailable, i + indexOffset);
        FilledBefore(txnAvailable, i + indexOffset + 1);
        assert FilledSlot(txnAvailable, Visited(i, offset, n));
        indexOffset := Wrap16(indexOffset + 1);
        n := n + 1;
      }
      assert Stops(txnAvailable, i, offset, n);
    }

    // Gives the short ids the free slots in order, by numbers of 16 bits.  Their
    // searches all end just when the precondition holds (SearchesEndExactly).
    method AssignSlots(c: CompactBlock, tooFull: nat -> bool) returns (ok: bool, m: map<nat, nat>, ghost offs: seq<nat>)
      requires Placed(c, |c.prefilledtxn|, txnAvailable) && (c.shorttxids == [] || |c.prefilledtxn| <= MAX_UINT16)
      ensures ok <==> Startable(c, tooFull)
      ensures ok ==> |offs| == |c.shorttxids| == |m| && Searched(txnAvailable, offs) && Mapped(c.shorttxids, Numbered(offs), m)
    {
      hide Free, Placed, Numbering, Finds, InOrder, Startable;
      m, offs := map[], [];
      NumberingStarts(txnAvailable, c.shorttxids);
      PlacedFree(c, txnAvailable);
      var indexOffset: nat := 0;
      for i := 0 to |c.shorttxids|
        invariant |offs| == i && Numbering(txnAvailable, c.shorttxids, offs, m)
        invariant indexOffset == StartOf(offs, i) <= MAX_UINT16 && forall k: nat | k < i :: !tooFull(k)
      {
        NumberingStart(txnAvailable, c.shorttxids, offs, m);
        indexOffset := SkipFilled(i, indexOffset);
        var slot := Wrap16(i + indexOffset);
        NumberingNext(txnAvailable, c.shorttxids, offs, m, indexOffset);
        m := m[c.shorttxids[i] := slot];
        offs := offs + [indexOffset];
        if tooFull(i) {
          NotStartable(c, tooFull, i);
          ok := false;
          return;
        }
      }
      NumberingEnds(txnAvailable, c, tooFull, offs, m);
      ok := |m| == |c.shorttxids|;
    }

    // Looks for mempool transactions with one of the short ids.  With `exact`
    // slot numbers it is followed what each slot holds.
    method MatchPool(c: CompactBlock, sid: ShortId, pool: seq<PoolTx>, m: map<nat, nat>,
                     ghost placed: Slots, ghost slots: seq<nat>, ghost exact: bool)
      returns (have: seq<bool>, ghost seen: nat)
      requires mempoolCount == 0 && txnAvailable == placed && InRange(m, |placed|)
      requires exact ==> SlotsKnown(c.shorttxids, placed, slots, m)
      modifies this`txnAvailable, this`mempoolCount
      ensures Counted(txnAvailable, have, mempoolCount) && |txnAvailable| == |placed| && seen <= |pool|
      ensures exact ==>
                && Matching(c.shorttxids, sid, placed, slots, m, txnAvailable, have, mempoolCount, pool)
                && Followed(c.shorttxids, sid, slots, txnAvailable, have, pool[..seen], [])
                && (seen == |pool| || forall p: nat | p < |txnAvailable| :: txnAvailable[p].Some?)
    {
      hide Free, Assigned, Mapped, Matching, Followed, Held;
      have := seq(|txnAvailable|, _ => false);
      NothingHeld(txnAvailable, have, |have|);
      if exact {
        MatchingStarts(c.shorttxids, sid, placed, slots, m, have);
        FollowsNothing(c.shorttxids, sid, placed, slots, have);
      }
      for i := 0 to |pool|
        invariant Counted(txnAvailable, have, mempoolCount) && |txnAvailable| == |placed|
        invariant exact ==> Matching(c.shorttxids, sid, placed, slots, m, txnAvailable, have, mempoolCount, pool[..i])
        invariant exact ==> Followed(c.shorttxids, sid, slots, txnAvailable, have, pool[..i], [])
      {
        ghost var avail0, have0, count0 := txnAvailable, have, mempoolCount;
        var shortid := sid(pool[i].hash);
        if shortid in m {
          var slot := m[shortid];
          HeldChange(txnAvailable, have, slot, pool[i].tx);
          if !have[slot] {
            txnAvailable := txnAvailable[slot := Some(pool[i].tx)];
            have := have[slot := true];
            mempoolCount := mempoolCount + 1;
          } else if txnAvailable[slot].Some? {
            txnAvailable := txnAvailable[slot := None];
            mempoolCount := mempoolCount - 1;
          }
        }
        if exact {
          PoolRound(c.shorttxids, sid, placed, slots, m, avail0, have0, count0, pool, i, txnAvailable, have, mempoolCount);
        }
        if mempoolCount == |m| {
          seen := i + 1;
          if exact {
            assert forall e | e in pool[..i + 1] :: e in pool;
            AllMatched(c.shorttxids, sid, placed, slots, m, txnAvailable, have, mempoolCount, pool[..i + 1]);
            MatchingMore(c.shorttxids, sid, placed, slots, m, txnAvailable, have, mempoolCount, pool[..i + 1], pool);
          }
          return;
        }
      }
      assert pool[..|pool|] == pool;
      seen := |pool|;
    }

    // The same with the extra transactions, where finding the same transaction
    // again does no harm.
    method MatchExtra(c: CompactBlock, sid: ShortId, ghost pool: seq<PoolTx>, extra: seq<PoolTx>, m: map<nat, nat>, have0: seq<bool>,
                      ghost placed: Slots, ghost slots: seq<nat>, ghost part: seq<PoolTx>, ghost exact: bool)
      returns (ghost have: seq<bool>, ghost seen: nat)
      requires Counted(txnAvailable, have0, mempoolCount) && InRange(m, |txnAvailable|)
      requires exact ==> Matching(c.shorttxids, sid, placed, slots, m, txnAvailable, have0, mempoolCount, pool)
      requires exact ==> Followed(c.shorttxids, sid, slots, txnAvailable, have0, part, [])
      modifies this`txnAvailable, this`mempoolCount
      ensures Counted(txnAvailable, have, mempoolCount) && |txnAvailable| == old(|txnAvailable|) && seen <= |extra|
      ensures exact ==>
                && Sound(c.shorttxids, sid, placed, slots, txnAvailable, pool + extra)
                && Followed(c.shorttxids, sid, slots, txnAvailable, have, part, extra[..seen])
                && (seen == |extra| || forall p: nat | p < |txnAvailable| :: txnAvailable[p].Some?)
    {
      hide Free, Assigned, Mapped, Matching, Sound, Followed, Held;
      var haveTxn := have0;
      assert pool + extra[..0] == pool;
      for i := 0 to |extra|
        invariant Counted(txnAvailable, haveTxn, mempoolCount) && |txnAvailable| == old(|txnAvailable|)
        invariant exact ==> Matching(c.shorttxids, sid, placed, slots, m, txnAvailable, haveTxn, mempoolCount, pool + extra[..i])
        invariant exact ==> Followed(c.shorttxids, sid, slots, txnAvailable, haveTxn, part, extra[..i])
      {
        ghost var avail0, haveBefore, count0 := txnAvailable, haveTxn, mempoolCount;
        var shortid := sid(extra[i].hash);
        if shortid in m {
          var slot := m[shortid];
          HeldChange(txnAvailable, haveTxn, slot, extra[i].tx);
          if !haveTxn[slot] {
            txnAvailable := txnAvailable[slot := Some(extra[i].tx)];
            haveTxn := haveTxn[slot := true];
            mempoolCount := mempoolCount + 1;
          } else if txnAvailable[slot].Some? && txnAvailable[slot].value.witnessHash != extra[i].tx.witnessHash {
            txnAvailable := txnAvailable[slot := None];
            mempoolCount := mempoolCount - 1;
          }
        }
        if exact {
          ExtraRound(c.shorttxids, sid, placed, slots, m, avail0, haveBefore, count0, pool, part, extra, i,
                     txnAvailable, haveTxn, mempoolCount);
        }
        if mempoolCount == |m| {
          have, seen := haveTxn, i + 1;
          if exact {
            ghost var entries := pool + extra[..i + 1];
            AllMatched(c.shorttxids, sid, placed, slots, m, txnAvailable, haveTxn, mempoolCount, entries);
            MatchingSound(c.shorttxids, sid, placed, slots, m, txnAvailable, haveTxn, mempoolCount, entries);
            assert forall e | e in entries :: e in pool + extra;
            SoundMore(c.shorttxids, sid, placed, slots, txnAvailable, entries, pool + extra);
          }
          return;
        }
      }
      assert extra[..|extra|] == extra;
      have, seen := haveTxn, |extra|;
      if exact {
        MatchingSound(c.shorttxids, sid, placed, slots, m, txnAvailable, haveTxn, mempoolCount, pool + extra);
      }
    }

    // Starts a download.  After success, and with at most 65,536 transactions
    // (SlotsExact), short ids and free slots correspond one to one, and what is
    // in a slot is prefilled or has its short id.
    method InitData(c: CompactBlock, sid: ShortId, pool: seq<PoolTx>, extra: seq<PoolTx>, tooFull: nat -> bool)
      returns (status: Status, ghost placed: Slots, ghost slots: seq<nat>, ghost seenPool: nat, ghost seenExtra: nat)
      requires header == None && txnAvailable == [] && mempoolCount == 0
      requires WellFormed(c) ==> c.shorttxids == [] || |c.prefilledtxn| <= MAX_UINT16
      modifies this
      ensures (status == Invalid <==> !WellFormed(c)) && (status == Ok <==> WellFormed(c) && Startable(c, tooFull))
      ensures status != CheckBlockFailed
      ensures status == Ok ==> header == c.header && Placed(c, |c.prefilledtxn|, placed) && |txnAvailable| == TxCount(c)
      ensures status == Ok ==> exists offs: seq<nat> :: |offs| == |c.shorttxids| && Searched(placed, offs) && slots == Numbered(offs)
      ensures status == Ok && TxCount(c) <= MAX_UINT16 + 1 ==> Sound(c.shorttxids, sid, placed, slots, txnAvailable, pool + extra)
      ensures status == Ok && TxCount(c) <= MAX_UINT16 + 1 ==>
                && seenPool <= |pool| && seenExtra <= |extra|
                && Available(c.shorttxids, sid, slots, txnAvailable, pool[..seenPool], extra[..seenExtra])
      ensures status == Ok && TxCount(c) <= MAX_UINT16 + 1 ==> KnownAvailable(c.shorttxids, sid, slots, txnAvailable, pool, extra)
    {
      hide Free, Placed, Assigned, Mapped, Sound, Followed, Startable, Available, KnownAvailable, Searched, Matching, Held;
      placed, slots, seenPool, seenExtra := [], [], 0, 0;
      if c.header == None || (c.shorttxids == [] && c.prefilledtxn == []) {
        return Invalid, placed, slots, 0, 0;
      }
      if TxCount(c) > MAX_BLOCK_WEIGHT / MIN_SERIALIZABLE_TRANSACTION_WEIGHT {
        return Invalid, placed, slots, 0, 0;
      }
      header := c.header;
      var ok := PlacePrefilled(c);
      if !ok {
        return Invalid, placed, slots, 0, 0;
      }
      placed := txnAvailable;
      var m: map<nat, nat>;
      ghost var offs;
      ok, m, offs := AssignSlots(c, tooFull);
      if !ok {
        return Failed, placed, slots, 0, 0;
      }
      slots := Numbered(offs);
      ghost var exact := TxCount(c) <= MAX_UINT16 + 1;
      NumbersInRange(c, placed, offs, m);
      var have;
      have, seenPool := MatchPool(c, sid, pool, m, placed, slots, exact);
      ghost var afterPool, met := txnAvailable, have;
      ghost var haveExtra;
      haveExtra, seenExtra := MatchExtra(c, sid, pool, extra, m, have, placed, slots, pool[..seenPool], exact);
      if exact {
        FoundAvailable(c.shorttxids, sid, slots, afterPool, met, txnAvailable, haveExtra, pool, extra, seenPool, seenExtra);
      }
      status := Ok;
    }

    // Completes the block with the missing transactions.  CheckBlock decides
    // in the end; `check` stands for it.
    method FillBlock(vtxMissing: seq<Tx>, check: seq<Tx> -> CheckResult) returns (status: Status, vtx: seq<Tx>)
      requires header.Some?
      modifies this
      ensures var n := Free(old(txnAvailable), |old(txnAvailable)|);
              if |vtxMissing| < n then status == Invalid && header == old(header) && RanOut(old(txnAvailable), |vtxMissing|, txnAvailable)
              else header == None && txnAvailable == [] && if |vtxMissing| > n then status == Invalid
              else IsFilled(old(txnAvailable), vtxMissing, vtx) && status == match check(vtx)
                case Good => Ok
                case CorruptionPossible => Failed
                case Bad => CheckBlockFailed
    {
      hide Free;
      ghost var avail := txnAvailable;
      vtx := [];
      var txMissingOffset := 0;
      FreeNone(avail);
      for i := 0 to |txnAvailable|
        invariant |vtx| == i && txMissingOffset == Free(avail, i) <= |vtxMissing| && header == old(header)
        invariant MovedOut(avail, i, txnAvailable)
        invariant forall k: nat | k < i :: FilledAt(avail, vtxMissing, vtx, k)
      {
        ghost var before := vtx;
        if txnAvailable[i].None? {
          FreeStep(avail, i);
          if |vtxMissing| <= txMissingOffset {
            FreeMonotone(avail, i + 1, |avail|);
            status := Invalid;
            return;
          }
          vtx := vtx + [vtxMissing[txMissingOffset]];
          txMissingOffset := txMissingOffset + 1;
        } else {
          FreeSkip(avail, i);
          vtx := vtx + [txnAvailable[i].value];
          txnAvailable := txnAvailable[i := None];
        }
        forall k: nat | k <= i
          ensures FilledAt(avail, vtxMissing, vtx, k)
        {
          assert k < i ==> FilledAt(avail, vtxMissing, before, k);
        }
      }
      header := None;
      txnAvailable := [];
      if |vtxMissing| != txMissingOffset {
        status := Invalid;
        return;
      }
      status := Verdict(check(vtx));
    }
  }

  datatype CheckResult = Good | CorruptionPossible | Bad

  function Verdict(r: CheckResult): Status {
    match r
    case Good => Ok
    case CorruptionPossible => Failed
    case Bad => CheckBlockFailed
  }

  // Short ids differ, and none meets a hash bucket with too many of them.
  ghost predicate Startable(c: CompactBlock, tooFull: nat -> bool) {
    Distinct(c.shorttxids) && forall k: nat | k < |c.shorttxids| :: !tooFull(k)
  }

  ghost predicate WellFormed(c: CompactBlock) {
    && c.header.Some? && (c.shorttxids != [] || c.prefilledtxn != [])
    && TxCount(c) <= MAX_BLOCK_WEIGHT / MIN_SERIALIZABLE_TRANSACTION_WEIGHT && PrefilledOk(c, |c.prefilledtxn|)
  }

  // Between one and a hundred thousand transactions, each one in full at a
  // position that sixteen bits hold and the short ids can lead up to.
  lemma WellFormedIs(c: CompactBlock)
    ensures WellFormed(c) <==>
              && c.header.Some? && 1 <= |c.shorttxids| + |c.prefilledtxn| <= 100_000
              && forall i: nat | i < |c.prefilledtxn| ::
                   !c.prefilledtxn[i].tx.isNull && Position(c.prefilledtxn, i) <= 65_535 && Position(c.prefilledtxn, i) <= |c.shorttxids| + i
  {
    assert MAX_BLOCK_WEIGHT / MIN_SERIALIZABLE_TRANSACTION_WEIGHT == 100_000;
  }

  // Slot k of the block is what was available, or the next missing one.
  ghost predicate FilledAt(avail: Slots, missing: seq<Tx>, vtx: seq<Tx>, k: nat) {
    && k < |vtx| && k < |avail|
    && (avail[k].Some? ==> vtx[k] == avail[k].value)
    && (avail[k].None? ==> Free(avail, k) < |missing| && vtx[k] == missing[Free(avail, k)])
  }

  ghost predicate IsFilled(avail: Slots, missing: seq<Tx>, vtx: seq<Tx>) {
    |vtx| == |avail| && forall k: nat | k < |avail| :: FilledAt(avail, missing, vtx, k)
  }

  // The transactions of the first n slots have been moved out of them.
  ghost predicate MovedOut(avail: Slots, n: nat, now: Slots) {
    && n <= |avail| == |now|
    && forall k: nat | k < |avail| :: now[k] == if k < n then None else avail[k]
  }

  // After some missing transactions there is a free slot with none left for it.
  ghost predicate RanOut(avail: Slots, missing: nat, now: Slots) {
    exists p: nat :: p < |avail| && avail[p].None? && Free(avail, p) == missing && MovedOut(avail, p, now)
  }

  lemma PlacedFree(c: CompactBlock, placed: Slots)
    requires Placed(c, |c.prefilledtxn|, placed)
    ensures |placed| == TxCount(c) && Free(placed, |placed|) == |c.shorttxids|
  {
  }

  lemma MatchingStarts(ids: seq<nat>, sid: ShortId, placed: Slots, slots: seq<nat>, m: map<nat, nat>, have: seq<bool>)
    requires |slots| == |ids| == |m| && Assigned(placed, slots) && Mapped(ids, slots, m) && Free(placed, |placed|) == |slots|
    requires |have| == |placed|
    ensures Matching(ids, sid, placed, slots, m, placed, have, 0, [])
  {
    hide Free, Mapped;
  }

  // Nothing is met before the first entry.
  lemma FollowsNothing(ids: seq<nat>, sid: ShortId, placed: Slots, slots: seq<nat>, have: seq<bool>)
    requires Assigned(placed, slots) && |slots| == |ids| && |have| == |placed| && forall p: nat | p < |have| :: !have[p]
    ensures Followed(ids, sid, slots, placed, have, [], [])
  {
    hide Free;
  }

  lemma MatchingSized(ids: seq<nat>, sid: ShortId, placed: Slots, slots: seq<nat>, m: map<nat, nat>,
                      avail: Slots, have: seq<bool>, count: nat, entries: seq<PoolTx>)
    requires Matching(ids, sid, placed, slots, m, avail, have, count, entries)
    ensures Assigned(placed, slots) && Mapped(ids, slots, m) && |m| == |slots| == |ids| && |have| == |avail|
  {
  }

  lemma MatchingSound(ids: seq<nat>, sid: ShortId, placed: Slots, slots: seq<nat>, m: map<nat, nat>,
                      avail: Slots, have: seq<bool>, count: nat, entries: seq<PoolTx>)
    requires Matching(ids, sid, placed, slots, m, avail, have, count, entries)
    ensures Sound(ids, sid, placed, slots, avail, entries)
  {
  }

  lemma NothingPlaced(c: CompactBlock, avail: Slots)
    requires |avail| == TxCount(c) && forall p: nat | p < |avail| :: avail[p].None?
    ensures Placed(c, 0, avail)
  {
    FreeAll(avail, |avail|);
  }

  lemma NothingMapped(ids: seq<nat>)
    ensures Mapped(ids, [], map[])
  {
  }

  lemma FreeNone(avail: Slots)
    ensures Free(avail, 0) == 0
  {
  }

  lemma FreeSkip(avail: Slots, p: nat)
    requires p < |avail| && avail[p].Some?
    ensures Free(avail, p + 1) == Free(avail, p)
  {
  }

  // ------------------------------------------------------------- reconstruction

  // No transaction the receiver knows shares a short id with another one of
  // the block.
  ghost predicate CollisionFree(ids: seq<nat>, sid: ShortId, vtx: seq<Tx>, entries: seq<PoolTx>)
    requires |vtx| == |ids| + 1
  {
    forall e, k: nat | e in entries && k < |ids| && sid(e.hash) == ids[k] :: e.tx == vtx[k + 1]
  }

  // What is available is right.
  ghost predicate Right(avail: Slots, vtx: seq<Tx>) {
    |avail| == |vtx| && forall p: nat | p < |avail| && avail[p].Some? :: avail[p].value == vtx[p]
  }

  lemma {:induction false} FreeAfterFirst(avail: Slots, k: nat)
    requires 0 < k <= |avail| && avail[0].Some? && forall p: nat | 0 < p < |avail| :: avail[p].None?
    ensures Free(avail, k) == k - 1
  {
    if k > 1 {
      FreeAfterFirst(avail, k - 1);
    }
  }

  lemma OnlyCoinbase(c: CompactBlock, vtx: seq<Tx>, fUseWTXID: bool, sid: ShortId, placed: Slots)
    requires IsCompactOf(c, vtx, fUseWTXID, sid) && Placed(c, 1, placed)
    ensures |placed| == |vtx| && placed[0] == Some(vtx[0]) && forall p: nat | 0 < p < |placed| :: placed[p].None?
  {
    assert Position(c.prefilledtxn, 0) == 0;
  }

  // Short id k is of transaction k + 1, and goes into slot k + 1.
  lemma SlotOfShortId(c: CompactBlock, vtx: seq<Tx>, fUseWTXID: bool, sid: ShortId, placed: Slots, slots: seq<nat>, p: nat)
    requires IsCompactOf(c, vtx, fUseWTXID, sid) && Placed(c, 1, placed) && Assigned(placed, slots) && |slots| == |c.shorttxids|
    requires 0 < p < |placed| && Free(placed, |placed|) == |slots|
    ensures p - 1 < |slots| && slots[p - 1] == p
  {
    OnlyCoinbase(c, vtx, fUseWTXID, sid, placed);
    FreeAfterFirst(placed, p);
    hide Free, Assigned, Placed;
    FreeIsAssigned(placed, slots, p);
  }

  // Whatever InitData found for a compact block of vtx belongs there.
  lemma AvailableIsRight(c: CompactBlock, vtx: seq<Tx>, fUseWTXID: bool, sid: ShortId,
                         placed: Slots, slots: seq<nat>, avail: Slots, entries: seq<PoolTx>)
    requires IsCompactOf(c, vtx, fUseWTXID, sid) && Placed(c, |c.prefilledtxn|, placed)
    requires Sound(c.shorttxids, sid, placed, slots, avail, entries) && CollisionFree(c.shorttxids, sid, vtx, entries)
    ensures Right(avail, vtx)
  {
    hide Free, Placed, Assigned;
    OnlyCoinbase(c, vtx, fUseWTXID, sid, placed);
    forall p: nat | p < |avail| && avail[p].Some?
      ensures avail[p].value == vtx[p]
    {
      if p > 0 {
        SlotOfShortId(c, vtx, fUseWTXID, sid, placed, slots, p);
        assert HasEntry(entries, sid, c.shorttxids[p - 1], avail[p].value);
      }
    }
  }

  // The transactions to ask for: those of the free slots, in order.
  ghost function Missing(avail: Slots, vtx: seq<Tx>, k: nat): seq<Tx>
    requires k <= |avail| == |vtx|
  {
    if k == 0 then [] else Missing(avail, vtx, k - 1) + if avail[k - 1].None? then [vtx[k - 1]] else []
  }

  lemma {:induction false} MissingAt(avail: Slots, vtx: seq<Tx>, p: nat, k: nat)
    requires p < k <= |avail| == |vtx| && avail[p].None?
    ensures |Missing(avail, vtx, k)| == Free(avail, k) && Free(avail, p) < Free(avail, k)
    ensures Missing(avail, vtx, k)[Free(avail, p)] == vtx[p]
  {
    if p < k - 1 {
      MissingAt(avail, vtx, p, k - 1);
    } else {
      MissingCount(avail, vtx, k - 1);
    }
  }

  lemma {:induction false} MissingCount(avail: Slots, vtx: seq<Tx>, k: nat)
    requires k <= |avail| == |vtx|
    ensures |Missing(avail, vtx, k)| == Free(avail, k)
  {
    if k > 0 {
      MissingCount(avail, vtx, k - 1);
    }
  }

  // With the missing transactions the block is the original one.
  lemma FilledIsOriginal(avail: Slots, vtx: seq<Tx>, result: seq<Tx>)
    requires Right(avail, vtx) && IsFilled(avail, Missing(avail, vtx, |avail|), result)
    ensures result == vtx
  {
    hide Free, Missing;
    forall p: nat | p < |avail|
      ensures result[p] == vtx[p]
    {
      assert FilledAt(avail, Missing(avail, vtx, |avail|), result, p);
      if avail[p].None? {
        MissingAt(avail, vtx, p, |avail|);
      }
    }
  }

  // A transaction of the block that the receiver did not know, or knew twice.
  ghost predicate IsUnknown(t: Tx, vtx: seq<Tx>, ids: seq<nat>, sid: ShortId, pool: seq<PoolTx>, extra: seq<PoolTx>)
    requires |vtx| == |ids| + 1
  {
    exists k: nat :: k < |ids| && vtx[k + 1] == t && !KnownOnce(sid, ids[k], pool, extra)
  }

  lemma OnlyUnknown(c: CompactBlock, vtx: seq<Tx>, fUseWTXID: bool, sid: ShortId, placed: Slots, slots: seq<nat>, avail: Slots,
                    pool: seq<PoolTx>, extra: seq<PoolTx>)
    requires IsCompactOf(c, vtx, fUseWTXID, sid) && Placed(c, |c.prefilledtxn|, placed)
    requires Sound(c.shorttxids, sid, placed, slots, avail, pool + extra) && |avail| == |vtx|
    requires KnownAvailable(c.shorttxids, sid, slots, avail, pool, extra)
    ensures forall t | t in Missing(avail, vtx, |avail|) :: IsUnknown(t, vtx, c.shorttxids, sid, pool, extra)
  {
    hide Free, Placed, Assigned, Missing, KnownOnce, HasEntry;
    OnlyCoinbase(c, vtx, fUseWTXID, sid, placed);
    forall t | t in Missing(avail, vtx, |avail|)
      ensures IsUnknown(t, vtx, c.shorttxids, sid, pool, extra)
    {
      var p := MissingFrom(avail, vtx, |avail|, t);
      assert p > 0;
      SlotOfShortId(c, vtx, fUseWTXID, sid, placed, slots, p);
      assert vtx[p - 1 + 1] == t && !KnownOnce(sid, c.shorttxids[p - 1], pool, extra);
    }
  }

  lemma {:induction false} MissingFrom(avail: Slots, vtx: seq<Tx>, k: nat, t: Tx) returns (p: nat)
    requires k <= |avail| == |vtx| && t in Missing(avail, vtx, k)
    ensures p < k && avail[p].None? && vtx[p] == t
  {
    if t in Missing(avail, vtx, k - 1) {
      p := MissingFrom(avail, vtx, k - 1, t);
    } else {
      p := k - 1;
    }
  }

  // A block sent as a compact block, matched against any pools without short-id
  // collisions, and completed: if the download starts, it ends with the block.
  method Transfer(head: nat, vtx: seq<Tx>, fUseWTXID: bool, sid: ShortId, pool: seq<PoolTx>, extra: seq<PoolTx>,
                  tooFull: nat -> bool, check: seq<Tx> -> CheckResult) returns (started: Status, ended: Status, asked: seq<Tx>, result: seq<Tx>)
    requires 0 < |vtx| <= MAX_UINT16 + 1 && !vtx[0].isNull
    requires CollisionFree(ShortIds(vtx, fUseWTXID, sid), sid, vtx, pool + extra)
    ensures started == if Distinct(ShortIds(vtx, fUseWTXID, sid)) && forall k: nat | k < |vtx| - 1 :: !tooFull(k) then Ok else Failed
    ensures started == Ok ==> result == vtx && ended == Verdict(check(vtx))
    ensures started == Ok ==> forall t | t in asked :: IsUnknown(t, vtx, ShortIds(vtx, fUseWTXID, sid), sid, pool, extra)
  {
    hide Free, Placed, Assigned, Sound, IsFilled, Available, KnownAvailable, IsUnknown, Distinct;
    var c := MakeCompact(head, vtx, fUseWTXID, sid);
    assert c.shorttxids == ShortIds(vtx, fUseWTXID, sid);
    var block := new PartiallyDownloadedBlock();
    ghost var placed: Slots, slots: seq<nat>, seenPool: nat, seenExtra: nat;
    ended, asked, result := Invalid, [], [];
    started, placed, slots, seenPool, seenExtra := block.InitData(c, sid, pool, extra, tooFull);
    assert Position(c.prefilledtxn, 0) == 0;
    assert WellFormed(c);
    if started == Ok {
      AvailableIsRight(c, vtx, fUseWTXID, sid, placed, slots, block.txnAvailable, pool + extra);
      ghost var avail := block.txnAvailable;
      MissingCount(avail, vtx, |avail|);
      asked := MissingOf(block, vtx);
      OnlyUnknown(c, vtx, fUseWTXID, sid, placed, slots, avail, pool, extra);
      ended, result := block.FillBlock(asked, check);
      FilledIsOriginal(avail, vtx, result);
    }
  }

  // What the sender answers to a request for the free slots.
  method MissingOf(block: PartiallyDownloadedBlock, vtx: seq<Tx>) returns (missing: seq<Tx>)
    requires |block.txnAvailable| == |vtx|
    ensures missing == Missing(block.txnAvailable, vtx, |vtx|)
  {
    missing := [];
    for i := 0 to |vtx|
      invariant missing == Missing(block.txnAvailable, vtx, i)
    {
      if block.txnAvailable[i].None? {
        missing := missing + [vtx[i]];
      }
    }
  }
}
