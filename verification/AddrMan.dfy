/**
 The stochastic address manager: a table of known peers with six redundant
 indexes (mapAddr, vRandom, the new and the tried buckets, and two counters).

 Bucket hashes are left open.  A bucket table maps its occupied slots to ids;
 a slot that the source marks with -1 is absent from the map.
 */
module AddrMan {
  import opened Numbers

  const TRIED_BUCKET_COUNT: nat := 256
  const NEW_BUCKET_COUNT: nat := 1024
  const BUCKET_SIZE: nat := 64
  const TRIED_BUCKETS_PER_GROUP: nat := 8
  const NEW_BUCKETS_PER_SOURCE_GROUP: nat := 64
  const NEW_BUCKETS_PER_ADDRESS: nat := 8

  type NetAddr = nat

  datatype Service = Service(ip: NetAddr, port: nat)

  /** CAddress: a service with its last known time and service bits. */
  datatype Address = Address(service: Service, nServices: bv64, nTime: nat)

  /** CAddrInfo. */
  datatype Info = Info(addr: Address, source: NetAddr, nLastTry: int, nLastCountAttempt: int, nLastSuccess: int,
                       nAttempts: nat, nRefCount: nat, fInTried: bool, nRandomPos: int) {
    function Ip(): NetAddr {
      addr.service.ip
    }
  }

  const ADDRMAN_HORIZON_DAYS: nat := 30
  const ADDRMAN_RETRIES: nat := 3
  const ADDRMAN_MAX_FAILURES: nat := 10
  const ADDRMAN_MIN_FAIL_DAYS: nat := 7
  const DAY: nat := 24 * 60 * 60

  // CAddrInfo::IsTerrible: bad enough to be dropped.
  predicate IsTerrible(info: Info, nNow: int) {
    if info.nLastTry != 0 && info.nLastTry >= nNow - 60 then false
    else if info.addr.nTime > nNow + 10 * 60 then true
    else if info.addr.nTime == 0 || nNow - info.addr.nTime > ADDRMAN_HORIZON_DAYS * DAY then true
    else if info.nLastSuccess == 0 && info.nAttempts >= ADDRMAN_RETRIES then true
    else nNow - info.nLastSuccess > ADDRMAN_MIN_FAIL_DAYS * DAY && info.nAttempts >= ADDRMAN_MAX_FAILURES
  }

  // Worth telling others about: tried within the last minute, or seen in the last
  // 30 days and not from the future, without three failures and never a success,
  // and without ten failures and no success in the last week.
  predicate Presentable(info: Info, nNow: int) {
    || (info.nLastTry != 0 && nNow - info.nLastTry <= 60)
    || (&& 0 < info.addr.nTime <= nNow + 600
        && nNow - info.addr.nTime <= 2_592_000
        && (info.nLastSuccess == 0 ==> info.nAttempts < 3)
        && (nNow - info.nLastSuccess > 604_800 ==> info.nAttempts < 10))
  }

  lemma TerribleExactly(info: Info, nNow: int)
    ensures IsTerrible(info, nNow) <==> !Presentable(info, nNow)
  {
  }

  datatype Slot = Slot(bucket: nat, pos: nat)

  // The group that an address belongs to, and the keyed hashes behind the choice
  // of buckets: which of the buckets of a group, and which bucket that is.
  datatype Hashes = Hashes(group: NetAddr -> nat,
                           triedChoice: (nat, Service) -> nat, triedBucket: (nat, nat, nat) -> nat,
                           newChoice: (nat, nat, nat) -> nat, newBucket: (nat, nat, nat) -> nat,
                           position: (nat, bool, nat, Service) -> nat)

  datatype AddrState = AddrState(nKey: nat, nIdCount: nat, mapInfo: map<nat, Info>, mapAddr: map<NetAddr, nat>,
                                 vRandom: seq<nat>, nTried: int, vvTried: map<Slot, nat>, nNew: int,
                                 vvNew: map<Slot, nat>, nLastGood: int)

  function BucketPosition(hs: Hashes, nKey: nat, isNew: bool, bucket: nat, service: Service): nat {
    hs.position(nKey, isNew, bucket, service) % BUCKET_SIZE
  }

  function TriedSlot(hs: Hashes, nKey: nat, service: Service): Slot {
    var choice := hs.triedChoice(nKey, service) % TRIED_BUCKETS_PER_GROUP;
    var bucket := hs.triedBucket(nKey, hs.group(service.ip), choice) % TRIED_BUCKET_COUNT;
    Slot(bucket, BucketPosition(hs, nKey, false, bucket, service))
  }

  // The only slot of a new bucket that a service can stand in.
  function NewSlot(hs: Hashes, nKey: nat, bucket: nat, service: Service): Slot {
    Slot(bucket, BucketPosition(hs, nKey, true, bucket, service))
  }

  function NewBucket(hs: Hashes, nKey: nat, service: Service, source: NetAddr): nat {
    var choice := hs.newChoice(nKey, hs.group(service.ip), hs.group(source)) % NEW_BUCKETS_PER_SOURCE_GROUP;
    hs.newBucket(nKey, hs.group(source), choice) % NEW_BUCKET_COUNT
  }

  // The tried buckets that addresses of a group can be in.
  ghost function TriedBuckets(hs: Hashes, nKey: nat, group: nat): set<nat> {
    set i: nat | i < 8 :: hs.triedBucket(nKey, group, i) % 256
  }

  // The new buckets for what sources of a group announce.
  ghost function SourceBuckets(hs: Hashes, nKey: nat, group: nat): set<nat> {
    set i: nat | i < 64 :: hs.newBucket(nKey, group, i) % 1_024
  }

  lemma BucketsOfGroups(hs: Hashes, nKey: nat, service: Service, source: NetAddr)
    ensures TriedSlot(hs, nKey, service).bucket in TriedBuckets(hs, nKey, hs.group(service.ip))
    ensures NewBucket(hs, nKey, service, source) in SourceBuckets(hs, nKey, hs.group(source))
  {
  }

  function Holds(table: map<Slot, nat>, slot: Slot, id: nat): bool {
    slot in table && table[slot] == id
  }

  // ----------------------------------------------------------- the invariant

  // mapAddr is the inverse of mapInfo's addresses.
  ghost predicate AddrIndex(s: AddrState) {
    && (forall id | id in s.mapInfo :: s.mapInfo[id].Ip() in s.mapAddr && s.mapAddr[s.mapInfo[id].Ip()] == id)
    && (forall ip | ip in s.mapAddr :: s.mapAddr[ip] in s.mapInfo && s.mapInfo[s.mapAddr[ip]].Ip() == ip)
  }

  // vRandom and nRandomPos are inverse to each other.
  ghost predicate RandomIndex(s: AddrState) {
    && (forall id | id in s.mapInfo ::
          0 <= s.mapInfo[id].nRandomPos < |s.vRandom| && s.vRandom[s.mapInfo[id].nRandomPos] == id)
    && (forall i | 0 <= i < |s.vRandom| :: s.vRandom[i] in s.mapInfo && s.mapInfo[s.vRandom[i]].nRandomPos == i)
  }

  ghost predicate IdsUsed(s: AddrState) {
    forall id | id in s.mapInfo :: id < s.nIdCount
  }

  // Tried entries are exactly the entries of the tried table, each in its slot.
  ghost predicate TriedTable(hs: Hashes, s: AddrState) {
    && (forall slot | slot in s.vvTried ::
          && s.vvTried[slot] in s.mapInfo && s.mapInfo[s.vvTried[slot]].fInTried
          && TriedSlot(hs, s.nKey, s.mapInfo[s.vvTried[slot]].addr.service) == slot)
    && (forall id | id in s.mapInfo && s.mapInfo[id].fInTried ::
          Holds(s.vvTried, TriedSlot(hs, s.nKey, s.mapInfo[id].addr.service), id))
  }

  // Entries of the new table are not tried, and in their position of the bucket.
  ghost predicate NewTable(hs: Hashes, s: AddrState) {
    forall slot | slot in s.vvNew ::
      && s.vvNew[slot] in s.mapInfo && !s.mapInfo[s.vvNew[slot]].fInTried
      && slot.bucket < NEW_BUCKET_COUNT
      && NewSlot(hs, s.nKey, slot.bucket, s.mapInfo[s.vvNew[slot]].addr.service) == slot
  }

  // The new buckets that hold an entry.
  ghost function BucketsOf(hs: Hashes, s: AddrState, id: nat): set<nat>
    requires id in s.mapInfo
  {
    set b: nat | b < NEW_BUCKET_COUNT && Holds(s.vvNew, NewSlot(hs, s.nKey, b, s.mapInfo[id].addr.service), id)
  }

  // Reference counts are exact; only entries in `limbo` may be in no table.
  ghost predicate RefCount(hs: Hashes, s: AddrState, limbo: set<nat>, id: nat)
    requires id in s.mapInfo
  {
    && s.mapInfo[id].nRefCount == |BucketsOf(hs, s, id)| <= NEW_BUCKETS_PER_ADDRESS
    && (s.mapInfo[id].fInTried ==> s.mapInfo[id].nRefCount == 0)
    && (!s.mapInfo[id].fInTried && s.mapInfo[id].nRefCount == 0 ==> id in limbo)
  }

  ghost predicate RefCounts(hs: Hashes, s: AddrState, limbo: set<nat>) {
    forall id {:trigger RefCount(hs, s, limbo, id)} | id in s.mapInfo :: RefCount(hs, s, limbo, id)
  }

  ghost function TriedIds(s: AddrState): set<nat> {
    set id | id in s.mapInfo && s.mapInfo[id].fInTried
  }

  ghost function NewIds(s: AddrState): set<nat> {
    set id | id in s.mapInfo && !s.mapInfo[id].fInTried
  }

  // The counters are exact, up to `dNew` entries not yet counted as new.
  ghost predicate Counts(s: AddrState, dNew: int) {
    s.nTried == |TriedIds(s)| && s.nNew + dNew == |NewIds(s)|
  }

  ghost predicate Good(hs: Hashes, s: AddrState, limbo: set<nat>, dNew: int) {
    && AddrIndex(s) && RandomIndex(s) && IdsUsed(s)
    && TriedTable(hs, s) && NewTable(hs, s) && RefCounts(hs, s, limbo) && Counts(s, dNew)
  }

  // The structural part of what Check_ demands between operations.
  ghost predicate Consistent(hs: Hashes, s: AddrState) {
    Good(hs, s, {}, 0)
  }

  // A table that holds each of some entries once, and nothing else.
  lemma {:induction false} TableSize(table: map<Slot, nat>, ids: set<nat>, home: nat -> Slot)
    requires forall id | id in ids :: Holds(table, home(id), id)
    requires forall slot | slot in table :: table[slot] in ids && home(table[slot]) == slot
    ensures |ids| == |table|
    decreases ids
  {
    if ids == {} {
      assert table == map[];
    } else {
      var id :| id in ids;
      var rest := table - {home(id)};
      assert |rest| == |table| - 1 by {
        assert rest.Keys == table.Keys - {home(id)} && |rest| == |rest.Keys| && |table| == |table.Keys|;
      }
      TableSize(rest, ids - {id}, home);
    }
  }

  lemma TriedHome(hs: Hashes, s: AddrState)
    requires TriedTable(hs, s)
    ensures |TriedIds(s)| == |s.vvTried|
  {
    hide TriedSlot;
    var home := (id: nat) => if id in s.mapInfo then TriedSlot(hs, s.nKey, s.mapInfo[id].addr.service) else Slot(0, 0);
    TableSize(s.vvTried, TriedIds(s), home);
  }

  // The counters: every tried entry is in one slot, and an entry is tried or new.
  lemma CountersMean(hs: Hashes, s: AddrState)
    requires Consistent(hs, s)
    ensures s.nTried == |s.vvTried| && s.nTried + s.nNew == |s.mapInfo|
  {
    hide AddrIndex, RandomIndex, IdsUsed, TriedTable, NewTable, RefCounts;
    TriedHome(hs, s);
    assert s.mapInfo.Keys == TriedIds(s) + NewIds(s) && TriedIds(s) !! NewIds(s);
    assert |s.mapInfo| == |s.mapInfo.Keys|;
  }

  function Empty(nKey: nat): AddrState {
    AddrState(nKey, 0, map[], map[], [], 0, map[], 0, map[], 1)
  }

  lemma GoodEmpty(hs: Hashes, nKey: nat)
    ensures Consistent(hs, Empty(nKey))
  {
    assert TriedIds(Empty(nKey)) == {} && NewIds(Empty(nKey)) == {};
  }

  // -------------------------------------------------------- the small steps

  // The same entries with the same addresses and places in vRandom.
  ghost predicate SameShape(s: AddrState, t: AddrState) {
    && t.nKey == s.nKey && t.nIdCount == s.nIdCount && t.mapAddr == s.mapAddr && t.vRandom == s.vRandom
    && t.mapInfo.Keys == s.mapInfo.Keys
    && (forall id | id in s.mapInfo ::
          t.mapInfo[id].addr.service == s.mapInfo[id].addr.service && t.mapInfo[id].nRandomPos == s.mapInfo[id].nRandomPos)
  }

  lemma ShapeKept(s: AddrState, t: AddrState)
    requires SameShape(s, t)
    ensures AddrIndex(s) ==> AddrIndex(t)
    ensures RandomIndex(s) ==> RandomIndex(t)
    ensures IdsUsed(s) ==> IdsUsed(t)
  {
  }

  // Entry x now stands in one more new bucket.
  function Linked(s: AddrState, x: nat, slot: Slot): AddrState
    requires x in s.mapInfo
  {
    s.(vvNew := s.vvNew[slot := x], mapInfo := s.mapInfo[x := s.mapInfo[x].(nRefCount := s.mapInfo[x].nRefCount + 1)])
  }

  lemma LinkedTables(hs: Hashes, s: AddrState, x: nat, slot: Slot)
    requires TriedTable(hs, s) && NewTable(hs, s)
    requires x in s.mapInfo && !s.mapInfo[x].fInTried && slot.bucket < NEW_BUCKET_COUNT
    requires slot == NewSlot(hs, s.nKey, slot.bucket, s.mapInfo[x].addr.service)
    ensures TriedTable(hs, Linked(s, x, slot)) && NewTable(hs, Linked(s, x, slot))
  {
  }

  lemma LinkedBuckets(hs: Hashes, s: AddrState, x: nat, slot: Slot, id: nat)
    requires NewTable(hs, s) && x in s.mapInfo && slot !in s.vvNew && slot.bucket < NEW_BUCKET_COUNT && id in s.mapInfo
    requires slot == NewSlot(hs, s.nKey, slot.bucket, s.mapInfo[x].addr.service)
    ensures BucketsOf(hs, Linked(s, x, slot), id) == BucketsOf(hs, s, id) + if id == x then {slot.bucket} else {}
    ensures slot.bucket !in BucketsOf(hs, s, x)
  {
  }

  lemma LinkedRefs(hs: Hashes, s: AddrState, x: nat, slot: Slot, limbo: set<nat>)
    requires NewTable(hs, s) && RefCounts(hs, s, limbo)
    requires x in s.mapInfo && !s.mapInfo[x].fInTried && s.mapInfo[x].nRefCount < NEW_BUCKETS_PER_ADDRESS
    requires slot !in s.vvNew && slot.bucket < NEW_BUCKET_COUNT
    requires slot == NewSlot(hs, s.nKey, slot.bucket, s.mapInfo[x].addr.service)
    ensures RefCounts(hs, Linked(s, x, slot), limbo - {x})
  {
    hide NewTable;
    var t := Linked(s, x, slot);
    forall id | id in t.mapInfo
      ensures RefCount(hs, t, limbo - {x}, id)
    {
      assert RefCount(hs, s, limbo, id);
      LinkedBuckets(hs, s, x, slot, id);
    }
  }

  lemma SameKinds(s: AddrState, t: AddrState, dNew: int)
    requires Counts(s, dNew) && t.nTried == s.nTried && t.nNew == s.nNew && t.mapInfo.Keys == s.mapInfo.Keys
    requires forall id | id in s.mapInfo :: t.mapInfo[id].fInTried == s.mapInfo[id].fInTried
    ensures Counts(t, dNew)
  {
    assert TriedIds(t) == TriedIds(s) && NewIds(t) == NewIds(s);
  }

  lemma GoodLinked(hs: Hashes, s: AddrState, x: nat, slot: Slot, limbo: set<nat>, dNew: int)
    requires Good(hs, s, limbo, dNew)
    requires x in s.mapInfo && !s.mapInfo[x].fInTried && s.mapInfo[x].nRefCount < NEW_BUCKETS_PER_ADDRESS
    requires slot !in s.vvNew && slot.bucket < NEW_BUCKET_COUNT
    requires slot == NewSlot(hs, s.nKey, slot.bucket, s.mapInfo[x].addr.service)
    ensures Good(hs, Linked(s, x, slot), limbo - {x}, dNew)
  {
    hide AddrIndex, RandomIndex, IdsUsed, TriedTable, NewTable, RefCounts, Counts;
    var t := Linked(s, x, slot);
    ShapeKept(s, t);
    LinkedTables(hs, s, x, slot);
    LinkedRefs(hs, s, x, slot, limbo);
    SameKinds(s, t, dNew);
  }

  // The same tables over the same entries; statistics and places
  // in vRandom may differ.
  ghost predicate SameTables(s: AddrState, t: AddrState) {
    && t.nKey == s.nKey && t.nIdCount == s.nIdCount && t.mapAddr == s.mapAddr
    && t.vvTried == s.vvTried && t.vvNew == s.vvNew && t.mapInfo.Keys == s.mapInfo.Keys
    && (forall id | id in s.mapInfo ::
          && t.mapInfo[id].addr.service == s.mapInfo[id].addr.service
          && t.mapInfo[id].nRefCount == s.mapInfo[id].nRefCount && t.mapInfo[id].fInTried == s.mapInfo[id].fInTried)
  }

  lemma TablesKept(hs: Hashes, s: AddrState, t: AddrState)
    requires SameTables(s, t)
    ensures AddrIndex(s) ==> AddrIndex(t)
    ensures IdsUsed(s) ==> IdsUsed(t)
    ensures TriedTable(hs, s) ==> TriedTable(hs, t)
    ensures NewTable(hs, s) ==> NewTable(hs, t)
  {
  }

  lemma RefCountsKept(hs: Hashes, s: AddrState, t: AddrState, limbo: set<nat>)
    requires SameTables(s, t) && RefCounts(hs, s, limbo)
    ensures RefCounts(hs, t, limbo)
  {
    forall id | id in t.mapInfo
      ensures RefCount(hs, t, limbo, id)
    {
      assert RefCount(hs, s, limbo, id);
      assert BucketsOf(hs, t, id) == BucketsOf(hs, s, id);
    }
  }

  // Nothing but statistics changed.
  lemma GoodTouched(hs: Hashes, s: AddrState, t: AddrState, limbo: set<nat>, dNew: int)
    requires Good(hs, s, limbo, dNew) && SameTables(s, t) && SameShape(s, t) && t.nTried == s.nTried && t.nNew == s.nNew
    ensures Good(hs, t, limbo, dNew)
  {
    hide AddrIndex, RandomIndex, IdsUsed, TriedTable, NewTable, RefCounts, Counts;
    ShapeKept(s, t);
    TablesKept(hs, s, t);
    RefCountsKept(hs, s, t, limbo);
    SameKinds(s, t, dNew);
  }

  // Entry x leaves one new bucket.
  function Unlinked(s: AddrState, slot: Slot): AddrState
    requires slot in s.vvNew && s.vvNew[slot] in s.mapInfo && s.mapInfo[s.vvNew[slot]].nRefCount > 0
  {
    var x := s.vvNew[slot];
    s.(vvNew := s.vvNew - {slot}, mapInfo := s.mapInfo[x := s.mapInfo[x].(nRefCount := s.mapInfo[x].nRefCount - 1)])
  }

  // An occupied slot is one of its entry's buckets, so the count is positive.
  lemma OccupantCounted(hs: Hashes, s: AddrState, slot: Slot, limbo: set<nat>)
    requires NewTable(hs, s) && RefCounts(hs, s, limbo) && slot in s.vvNew
    ensures s.vvNew[slot] in s.mapInfo && s.mapInfo[s.vvNew[slot]].nRefCount > 0
    ensures slot.bucket in BucketsOf(hs, s, s.vvNew[slot])
  {
    assert RefCount(hs, s, limbo, s.vvNew[slot]);
    assert slot.bucket in BucketsOf(hs, s, s.vvNew[slot]);
  }

  lemma UnlinkedBuckets(hs: Hashes, s: AddrState, slot: Slot, id: nat)
    requires NewTable(hs, s) && slot in s.vvNew && s.mapInfo[s.vvNew[slot]].nRefCount > 0 && id in s.mapInfo
    ensures BucketsOf(hs, Unlinked(s, slot), id) == BucketsOf(hs, s, id) - if id == s.vvNew[slot] then {slot.bucket} else {}
  {
  }

  lemma UnlinkedTables(hs: Hashes, s: AddrState, slot: Slot)
    requires TriedTable(hs, s) && NewTable(hs, s) && slot in s.vvNew && s.mapInfo[s.vvNew[slot]].nRefCount > 0
    ensures TriedTable(hs, Unlinked(s, slot)) && NewTable(hs, Unlinked(s, slot))
  {
  }

  lemma UnlinkedRefs(hs: Hashes, s: AddrState, slot: Slot, limbo: set<nat>)
    requires NewTable(hs, s) && RefCounts(hs, s, limbo) && slot in s.vvNew && s.mapInfo[s.vvNew[slot]].nRefCount > 0
    ensures var left := Unlinked(s, slot).mapInfo[s.vvNew[slot]].nRefCount;
            RefCounts(hs, Unlinked(s, slot), if left == 0 then limbo + {s.vvNew[slot]} else limbo)
  {
    OccupantCounted(hs, s, slot, limbo);
    hide NewTable;
    var t, x := Unlinked(s, slot), s.vvNew[slot];
    var limbo' := if t.mapInfo[x].nRefCount == 0 then limbo + {x} else limbo;
    forall id | id in t.mapInfo
      ensures RefCount(hs, t, limbo', id)
    {
      assert RefCount(hs, s, limbo, id);
      UnlinkedBuckets(hs, s, slot, id);
    }
  }

  lemma GoodUnlinked(hs: Hashes, s: AddrState, slot: Slot, limbo: set<nat>, dNew: int)
    requires Good(hs, s, limbo, dNew) && slot in s.vvNew
    ensures s.vvNew[slot] in s.mapInfo && s.mapInfo[s.vvNew[slot]].nRefCount > 0
    ensures var left := Unlinked(s, slot).mapInfo[s.vvNew[slot]].nRefCount;
            Good(hs, Unlinked(s, slot), if left == 0 then limbo + {s.vvNew[slot]} else limbo, dNew)
  {
    hide AddrIndex, RandomIndex, IdsUsed, TriedTable, NewTable, RefCounts, Counts;
    OccupantCounted(hs, s, slot, limbo);
    var t := Unlinked(s, slot);
    ShapeKept(s, t);
    UnlinkedTables(hs, s, slot);
    UnlinkedRefs(hs, s, slot, limbo);
    SameKinds(s, t, dNew);
  }

  // ------------------------------------------------------ vRandom and deletion

  // Entry x believes to be at a place of vRandom.
  function Placed(s: AddrState, x: nat, pos: nat): AddrState
    requires x in s.mapInfo
  {
    s.(mapInfo := s.mapInfo[x := s.mapInfo[x].(nRandomPos := pos)])
  }

  function Swapped(s: AddrState, i: nat, j: nat): AddrState
    requires i < |s.vRandom| && j < |s.vRandom| && s.vRandom[i] in s.mapInfo && s.vRandom[j] in s.mapInfo
  {
    if i == j then s else
    var a, b := s.vRandom[i], s.vRandom[j];
    Placed(Placed(s, a, j), b, i).(vRandom := s.vRandom[i := b][j := a])
  }

  lemma PlacedTables(s: AddrState, x: nat, pos: nat)
    requires x in s.mapInfo
    ensures SameTables(s, Placed(s, x, pos)) && Placed(s, x, pos).nTried == s.nTried && Placed(s, x, pos).nNew == s.nNew
  {
  }

  lemma SwappedIndex(s: AddrState, i: nat, j: nat)
    requires RandomIndex(s) && i < |s.vRandom| && j < |s.vRandom|
    ensures RandomIndex(Swapped(s, i, j))
  {
    if i != j {
      var t, a, b := Swapped(s, i, j), s.vRandom[i], s.vRandom[j];
      assert s.mapInfo[a].nRandomPos == i && s.mapInfo[b].nRandomPos == j;
      assert t.mapInfo[a].nRandomPos == j && t.mapInfo[b].nRandomPos == i;
      assert forall id | id in s.mapInfo && id != a && id != b :: t.mapInfo[id] == s.mapInfo[id];
      assert forall k | 0 <= k < |s.vRandom| && k != i && k != j ::
               t.vRandom[k] == s.vRandom[k] && s.vRandom[k] != a && s.vRandom[k] != b;
      hide Swapped;
    }
  }

  lemma SwappedTables(s: AddrState, i: nat, j: nat)
    requires i < |s.vRandom| && j < |s.vRandom| && s.vRandom[i] in s.mapInfo && s.vRandom[j] in s.mapInfo
    ensures SameTables(s, Swapped(s, i, j)) && Swapped(s, i, j).nTried == s.nTried && Swapped(s, i, j).nNew == s.nNew
  {
    if i != j {
      var u := Placed(s, s.vRandom[i], j);
      PlacedTables(s, s.vRandom[i], j);
      PlacedTables(u, s.vRandom[j], i);
      hide Placed;
    }
  }

  lemma GoodSwapped(hs: Hashes, s: AddrState, i: nat, j: nat, limbo: set<nat>, dNew: int)
    requires Good(hs, s, limbo, dNew) && i < |s.vRandom| && j < |s.vRandom|
    ensures s.vRandom[i] in s.mapInfo && s.vRandom[j] in s.mapInfo
    ensures Good(hs, Swapped(s, i, j), limbo, dNew)
  {
    SwappedIndex(s, i, j);
    SwappedTables(s, i, j);
    var t := Swapped(s, i, j);
    hide AddrIndex, RandomIndex, IdsUsed, TriedTable, NewTable, RefCounts, Counts, Swapped;
    TablesKept(hs, s, t);
    RefCountsKept(hs, s, t, limbo);
    SameKinds(s, t, dNew);
  }

  // Forgets the entry at the end of vRandom.
  function Popped(s: AddrState, x: nat): AddrState
    requires x in s.mapInfo && s.vRandom != []
  {
    s.(vRandom := s.vRandom[..|s.vRandom| - 1], mapAddr := s.mapAddr - {s.mapInfo[x].Ip()},
       mapInfo := s.mapInfo - {x}, nNew := s.nNew - 1)
  }

  lemma PoppedAddr(s: AddrState, x: nat)
    requires AddrIndex(s) && IdsUsed(s) && s.vRandom != [] && x in s.mapInfo
    ensures AddrIndex(Popped(s, x)) && IdsUsed(Popped(s, x))
  {
    assert forall id | id in s.mapInfo && id != x :: s.mapInfo[id].Ip() != s.mapInfo[x].Ip();
  }

  lemma PoppedRandom(s: AddrState, x: nat)
    requires RandomIndex(s) && s.vRandom != [] && x == s.vRandom[|s.vRandom| - 1]
    ensures RandomIndex(Popped(s, x))
  {
    var t, last := Popped(s, x), |s.vRandom| - 1;
    assert s.mapInfo[x].nRandomPos == last;
    assert forall i | 0 <= i < last :: t.vRandom[i] == s.vRandom[i] && s.vRandom[i] != x;
  }

  // An entry in limbo is in no table, so the tables survive its deletion.
  lemma NowhereNew(hs: Hashes, s: AddrState, x: nat, limbo: set<nat>)
    requires NewTable(hs, s) && RefCounts(hs, s, limbo) && x in s.mapInfo && s.mapInfo[x].nRefCount == 0
    ensures forall slot | slot in s.vvNew :: s.vvNew[slot] != x
  {
    assert RefCount(hs, s, limbo, x);
    forall slot | slot in s.vvNew
      ensures s.vvNew[slot] != x
    {
      assert slot.bucket !in BucketsOf(hs, s, x);
    }
  }

  lemma PoppedTables(hs: Hashes, s: AddrState, x: nat)
    requires TriedTable(hs, s) && NewTable(hs, s) && s.vRandom != []
    requires x in s.mapInfo && !s.mapInfo[x].fInTried && (forall slot | slot in s.vvNew :: s.vvNew[slot] != x)
    ensures TriedTable(hs, Popped(s, x)) && NewTable(hs, Popped(s, x))
  {
  }

  lemma PoppedRefs(hs: Hashes, s: AddrState, x: nat, limbo: set<nat>)
    requires RefCounts(hs, s, limbo) && x in s.mapInfo && s.vRandom != []
    ensures RefCounts(hs, Popped(s, x), limbo - {x})
  {
    var t := Popped(s, x);
    forall id | id in t.mapInfo
      ensures RefCount(hs, t, limbo - {x}, id)
    {
      assert RefCount(hs, s, limbo, id);
      assert BucketsOf(hs, t, id) == BucketsOf(hs, s, id);
    }
  }

  lemma PoppedCounts(s: AddrState, x: nat, dNew: int)
    requires Counts(s, dNew) && x in s.mapInfo && !s.mapInfo[x].fInTried && s.vRandom != []
    ensures Counts(Popped(s, x), dNew)
  {
    assert TriedIds(Popped(s, x)) == TriedIds(s);
    assert NewIds(Popped(s, x)) == NewIds(s) - {x};
  }

  lemma GoodPopped(hs: Hashes, s: AddrState, x: nat, limbo: set<nat>, dNew: int)
    requires Good(hs, s, limbo, dNew) && s.vRandom != [] && x == s.vRandom[|s.vRandom| - 1]
    requires x in s.mapInfo && !s.mapInfo[x].fInTried && s.mapInfo[x].nRefCount == 0
    ensures Good(hs, Popped(s, x), limbo - {x}, dNew)
  {
    hide AddrIndex, RandomIndex, IdsUsed, TriedTable, NewTable, RefCounts, Counts;
    PoppedAddr(s, x);
    PoppedRandom(s, x);
    NowhereNew(hs, s, x, limbo);
    PoppedTables(hs, s, x);
    PoppedRefs(hs, s, x, limbo);
    PoppedCounts(s, x, dNew);
  }

  // CAddrMan::Delete.
  ghost function Deleted(s: AddrState, x: nat): AddrState
    requires RandomIndex(s) && x in s.mapInfo
  {
    Popped(Swapped(s, s.mapInfo[x].nRandomPos, |s.vRandom| - 1), x)
  }

  lemma SwappedToEnd(s: AddrState, x: nat)
    requires RandomIndex(s) && x in s.mapInfo
    ensures 0 <= s.mapInfo[x].nRandomPos < |s.vRandom| && s.vRandom[s.mapInfo[x].nRandomPos] == x
    ensures s.vRandom[|s.vRandom| - 1] in s.mapInfo
    ensures var t := Swapped(s, s.mapInfo[x].nRandomPos, |s.vRandom| - 1);
            |t.vRandom| == |s.vRandom| && t.vRandom[|s.vRandom| - 1] == x
  {
  }

  lemma GoodDeleted(hs: Hashes, s: AddrState, x: nat, limbo: set<nat>, dNew: int)
    requires Good(hs, s, limbo, dNew)
    requires x in s.mapInfo && !s.mapInfo[x].fInTried && s.mapInfo[x].nRefCount == 0
    ensures Good(hs, Deleted(s, x), limbo - {x}, dNew)
  {
    hide AddrIndex, RandomIndex, IdsUsed, TriedTable, NewTable, RefCounts, Counts, Swapped, Popped;
    SwappedToEnd(s, x);
    var i, j := s.mapInfo[x].nRandomPos, |s.vRandom| - 1;
    GoodSwapped(hs, s, i, j, limbo, dNew);
    SwappedTables(s, i, j);
    GoodPopped(hs, Swapped(s, i, j), x, limbo, dNew);
  }

  // CAddrMan::Create.
  function Created(s: AddrState, addr: Address, source: NetAddr): AddrState {
    var info := Info(addr, source, 0, 0, 0, 0, 0, false, |s.vRandom|);
    s.(nIdCount := s.nIdCount + 1, mapInfo := s.mapInfo[s.nIdCount := info],
       mapAddr := s.mapAddr[addr.service.ip := s.nIdCount], vRandom := s.vRandom + [s.nIdCount])
  }

  lemma CreatedAddr(s: AddrState, addr: Address, source: NetAddr)
    requires AddrIndex(s) && IdsUsed(s) && addr.service.ip !in s.mapAddr
    ensures AddrIndex(Created(s, addr, source)) && IdsUsed(Created(s, addr, source))
    ensures s.nIdCount !in s.mapInfo
  {
    assert s.nIdCount !in s.mapInfo;
  }

  lemma CreatedRandom(s: AddrState, addr: Address, source: NetAddr)
    requires RandomIndex(s) && s.nIdCount !in s.mapInfo
    ensures RandomIndex(Created(s, addr, source))
  {
  }

  lemma CreatedTables(hs: Hashes, s: AddrState, addr: Address, source: NetAddr)
    requires TriedTable(hs, s) && NewTable(hs, s) && s.nIdCount !in s.mapInfo
    ensures TriedTable(hs, Created(s, addr, source)) && NewTable(hs, Created(s, addr, source))
  {
  }

  lemma CreatedRefs(hs: Hashes, s: AddrState, addr: Address, source: NetAddr, limbo: set<nat>)
    requires NewTable(hs, s) && RefCounts(hs, s, limbo) && s.nIdCount !in s.mapInfo
    ensures RefCounts(hs, Created(s, addr, source), limbo + {s.nIdCount})
  {
    var t, x := Created(s, addr, source), s.nIdCount;
    forall id | id in t.mapInfo
      ensures RefCount(hs, t, limbo + {x}, id)
    {
      if id == x {
        assert BucketsOf(hs, t, id) == {};
      } else {
        assert RefCount(hs, s, limbo, id);
        assert BucketsOf(hs, t, id) == BucketsOf(hs, s, id);
      }
    }
  }

  lemma CreatedCounts(s: AddrState, addr: Address, source: NetAddr, dNew: int)
    requires Counts(s, dNew) && s.nIdCount !in s.mapInfo
    ensures Counts(Created(s, addr, source), dNew + 1)
  {
    assert TriedIds(Created(s, addr, source)) == TriedIds(s);
    assert NewIds(Created(s, addr, source)) == NewIds(s) + {s.nIdCount};
  }

  lemma GoodCreated(hs: Hashes, s: AddrState, addr: Address, source: NetAddr, limbo: set<nat>, dNew: int)
    requires Good(hs, s, limbo, dNew) && addr.service.ip !in s.mapAddr
    ensures Good(hs, Created(s, addr, source), limbo + {s.nIdCount}, dNew + 1)
  {
    hide AddrIndex, RandomIndex, TriedTable, NewTable, RefCounts, Counts;
    CreatedAddr(s, addr, source);
    CreatedRandom(s, addr, source);
    CreatedTables(hs, s, addr, source);
    CreatedRefs(hs, s, addr, source, limbo);
    CreatedCounts(s, addr, source, dNew);
  }

  // ------------------------------------------------------------ tried entries

  // A tried entry is thrown out of its slot.
  function Evicted(s: AddrState, slot: Slot): AddrState
    requires slot in s.vvTried && s.vvTried[slot] in s.mapInfo
  {
    var x := s.vvTried[slot];
    s.(vvTried := s.vvTried - {slot}, nTried := s.nTried - 1, mapInfo := s.mapInfo[x := s.mapInfo[x].(fInTried := false)])
  }

  lemma EvictedTables(hs: Hashes, s: AddrState, slot: Slot)
    requires TriedTable(hs, s) && NewTable(hs, s) && slot in s.vvTried
    ensures TriedTable(hs, Evicted(s, slot)) && NewTable(hs, Evicted(s, slot))
  {
  }

  lemma EvictedRefs(hs: Hashes, s: AddrState, slot: Slot, limbo: set<nat>)
    requires TriedTable(hs, s) && RefCounts(hs, s, limbo) && slot in s.vvTried
    ensures RefCounts(hs, Evicted(s, slot), limbo + {s.vvTried[slot]})
  {
    var t, x := Evicted(s, slot), s.vvTried[slot];
    forall id | id in t.mapInfo
      ensures RefCount(hs, t, limbo + {x}, id)
    {
      assert RefCount(hs, s, limbo, id);
      assert BucketsOf(hs, t, id) == BucketsOf(hs, s, id);
    }
  }

  lemma EvictedCounts(hs: Hashes, s: AddrState, slot: Slot, dNew: int)
    requires TriedTable(hs, s) && Counts(s, dNew) && slot in s.vvTried
    ensures Counts(Evicted(s, slot), dNew + 1)
  {
    var x := s.vvTried[slot];
    assert TriedIds(Evicted(s, slot)) == TriedIds(s) - {x};
    assert NewIds(Evicted(s, slot)) == NewIds(s) + {x};
  }

  lemma TriedOccupant(hs: Hashes, s: AddrState, slot: Slot)
    requires TriedTable(hs, s) && slot in s.vvTried
    ensures s.vvTried[slot] in s.mapInfo && s.mapInfo[s.vvTried[slot]].fInTried
  {
  }

  lemma GoodEvicted(hs: Hashes, s: AddrState, slot: Slot, limbo: set<nat>, dNew: int)
    requires Good(hs, s, limbo, dNew) && slot in s.vvTried
    ensures s.vvTried[slot] in s.mapInfo && s.mapInfo[s.vvTried[slot]].fInTried
    ensures Good(hs, Evicted(s, slot), limbo + {s.vvTried[slot]}, dNew + 1)
  {
    hide AddrIndex, RandomIndex, IdsUsed, TriedTable, NewTable, RefCounts, Counts;
    TriedOccupant(hs, s, slot);
    ShapeKept(s, Evicted(s, slot));
    EvictedTables(hs, s, slot);
    EvictedRefs(hs, s, slot, limbo);
    EvictedCounts(hs, s, slot, dNew);
  }

  // An entry in limbo enters its free tried slot.
  function Promoted(hs: Hashes, s: AddrState, x: nat): AddrState
    requires x in s.mapInfo
  {
    s.(vvTried := s.vvTried[TriedSlot(hs, s.nKey, s.mapInfo[x].addr.service) := x], nTried := s.nTried + 1,
       mapInfo := s.mapInfo[x := s.mapInfo[x].(fInTried := true)])
  }

  lemma PromotedTables(hs: Hashes, s: AddrState, x: nat)
    requires TriedTable(hs, s) && NewTable(hs, s) && x in s.mapInfo && (forall slot | slot in s.vvNew :: s.vvNew[slot] != x)
    requires TriedSlot(hs, s.nKey, s.mapInfo[x].addr.service) !in s.vvTried
    ensures TriedTable(hs, Promoted(hs, s, x)) && NewTable(hs, Promoted(hs, s, x))
  {
  }

  lemma PromotedRefs(hs: Hashes, s: AddrState, x: nat, limbo: set<nat>)
    requires RefCounts(hs, s, limbo) && x in s.mapInfo && s.mapInfo[x].nRefCount == 0
    ensures RefCounts(hs, Promoted(hs, s, x), limbo - {x})
  {
    var t := Promoted(hs, s, x);
    forall id | id in t.mapInfo
      ensures RefCount(hs, t, limbo - {x}, id)
    {
      assert RefCount(hs, s, limbo, id);
      assert BucketsOf(hs, t, id) == BucketsOf(hs, s, id);
    }
  }

  lemma PromotedCounts(hs: Hashes, s: AddrState, x: nat, dNew: int)
    requires Counts(s, dNew) && x in s.mapInfo && !s.mapInfo[x].fInTried
    ensures Counts(Promoted(hs, s, x), dNew - 1)
  {
    assert TriedIds(Promoted(hs, s, x)) == TriedIds(s) + {x};
    assert NewIds(Promoted(hs, s, x)) == NewIds(s) - {x};
  }

  lemma GoodPromoted(hs: Hashes, s: AddrState, x: nat, limbo: set<nat>, dNew: int)
    requires Good(hs, s, limbo, dNew) && x in s.mapInfo && !s.mapInfo[x].fInTried && s.mapInfo[x].nRefCount == 0
    requires TriedSlot(hs, s.nKey, s.mapInfo[x].addr.service) !in s.vvTried
    ensures Good(hs, Promoted(hs, s, x), limbo - {x}, dNew - 1)
  {
    hide AddrIndex, RandomIndex, IdsUsed, TriedTable, NewTable, RefCounts, Counts;
    ShapeKept(s, Promoted(hs, s, x));
    NowhereNew(hs, s, x, limbo);
    PromotedTables(hs, s, x);
    PromotedRefs(hs, s, x, limbo);
    PromotedCounts(hs, s, x, dNew);
  }

  // An entry leaves all new buckets.
  function Withdrawn(s: AddrState, x: nat): AddrState
    requires x in s.mapInfo
  {
    s.(vvNew := map slot | slot in s.vvNew && s.vvNew[slot] != x :: s.vvNew[slot],
       mapInfo := s.mapInfo[x := s.mapInfo[x].(nRefCount := 0)])
  }

  lemma WithdrawnTables(hs: Hashes, s: AddrState, x: nat)
    requires TriedTable(hs, s) && NewTable(hs, s) && x in s.mapInfo
    ensures TriedTable(hs, Withdrawn(s, x)) && NewTable(hs, Withdrawn(s, x))
  {
  }

  lemma WithdrawnRefs(hs: Hashes, s: AddrState, x: nat, limbo: set<nat>)
    requires RefCounts(hs, s, limbo) && x in s.mapInfo
    ensures RefCounts(hs, Withdrawn(s, x), limbo + {x})
  {
    var t := Withdrawn(s, x);
    forall id | id in t.mapInfo
      ensures RefCount(hs, t, limbo + {x}, id)
    {
      assert RefCount(hs, s, limbo, id);
      assert BucketsOf(hs, t, id) == if id == x then {} else BucketsOf(hs, s, id);
    }
  }

  lemma GoodWithdrawn(hs: Hashes, s: AddrState, x: nat, limbo: set<nat>, dNew: int)
    requires Good(hs, s, limbo, dNew) && x in s.mapInfo
    ensures Good(hs, Withdrawn(s, x), limbo + {x}, dNew)
  {
    hide AddrIndex, RandomIndex, IdsUsed, TriedTable, NewTable, RefCounts, Counts;
    ShapeKept(s, Withdrawn(s, x));
    WithdrawnTables(hs, s, x);
    WithdrawnRefs(hs, s, x, limbo);
    SameKinds(s, Withdrawn(s, x), dNew);
  }

  // ------------------------------------------------------ composed operations

  // CAddrMan::ClearNew.
  ghost function Cleared(s: AddrState, slot: Slot): AddrState
    requires RandomIndex(s)
    requires slot in s.vvNew ==> s.vvNew[slot] in s.mapInfo && s.mapInfo[s.vvNew[slot]].nRefCount > 0
  {
    if slot !in s.vvNew then s else
    var x, t := s.vvNew[slot], Unlinked(s, slot);
    ShapeKept(s, t);
    if t.mapInfo[x].nRefCount == 0 then Deleted(t, x) else t
  }

  // Clearing a slot touches no other slot, and no entry but the one it held.
  ghost predicate ClearedOnly(s: AddrState, slot: Slot, t: AddrState) {
    && t.nKey == s.nKey && t.nIdCount == s.nIdCount && t.vvTried == s.vvTried && t.nTried == s.nTried
    && t.vvNew == s.vvNew - {slot} && t.nLastGood == s.nLastGood
    && (forall id | id in s.mapInfo && !Holds(s.vvNew, slot, id) :: SameEntry(s, t, id))
    && (forall id | id in t.mapInfo :: id in s.mapInfo)
  }

  // The entry is unchanged but for its place in vRandom.
  ghost predicate SameEntry(s: AddrState, t: AddrState, id: nat)
    requires id in s.mapInfo
  {
    id in t.mapInfo && t.mapInfo[id] == s.mapInfo[id].(nRandomPos := t.mapInfo[id].nRandomPos)
  }

  ghost predicate SameFrame(s: AddrState, t: AddrState) {
    && t.nKey == s.nKey && t.nIdCount == s.nIdCount && t.vvTried == s.vvTried && t.nTried == s.nTried
    && t.vvNew == s.vvNew && t.nLastGood == s.nLastGood
  }

  lemma SwappedOnly(s: AddrState, i: nat, j: nat)
    requires i < |s.vRandom| && j < |s.vRandom| && s.vRandom[i] in s.mapInfo && s.vRandom[j] in s.mapInfo
    ensures SameFrame(s, Swapped(s, i, j)) && Swapped(s, i, j).mapInfo.Keys == s.mapInfo.Keys
    ensures forall id | id in s.mapInfo :: SameEntry(s, Swapped(s, i, j), id)
  {
    if i != j {
      var u := Placed(s, s.vRandom[i], j);
      var v := Placed(u, s.vRandom[j], i);
      assert forall id | id in s.mapInfo :: SameEntry(s, u, id);
      assert forall id | id in u.mapInfo :: SameEntry(u, v, id);
      hide Placed;
      forall id | id in s.mapInfo
        ensures SameEntry(s, Swapped(s, i, j), id)
      {
        assert SameEntry(s, u, id) && SameEntry(u, v, id);
      }
    }
  }

  lemma PoppedOnly(s: AddrState, x: nat)
    requires x in s.mapInfo && s.vRandom != []
    ensures SameFrame(s, Popped(s, x)) && Popped(s, x).mapInfo.Keys == s.mapInfo.Keys - {x}
    ensures forall id | id in s.mapInfo && id != x :: SameEntry(s, Popped(s, x), id)
  {
  }

  lemma DeletedOnly(s: AddrState, x: nat)
    requires RandomIndex(s) && x in s.mapInfo
    ensures SameFrame(s, Deleted(s, x)) && Deleted(s, x).mapInfo.Keys == s.mapInfo.Keys - {x}
    ensures forall id | id in s.mapInfo && id != x :: SameEntry(s, Deleted(s, x), id)
  {
    hide RandomIndex, Swapped, Popped;
    SwappedToEnd(s, x);
    var i, j := s.mapInfo[x].nRandomPos, |s.vRandom| - 1;
    SwappedOnly(s, i, j);
    var u := Swapped(s, i, j);
    PoppedOnly(u, x);
    forall id | id in s.mapInfo && id != x
      ensures SameEntry(s, Deleted(s, x), id)
    {
      assert SameEntry(s, u, id) && SameEntry(u, Popped(u, x), id);
    }
  }

  lemma GoodCleared(hs: Hashes, s: AddrState, slot: Slot, limbo: set<nat>, dNew: int)
    requires Good(hs, s, limbo, dNew)
    ensures slot in s.vvNew ==> s.vvNew[slot] in s.mapInfo && s.mapInfo[s.vvNew[slot]].nRefCount > 0
    ensures Good(hs, Cleared(s, slot), limbo, dNew)
  {
    hide AddrIndex, RandomIndex, IdsUsed, TriedTable, NewTable, RefCounts, Counts, Deleted;
    if slot in s.vvNew {
      GoodUnlinked(hs, s, slot, limbo, dNew);
      var x, t := s.vvNew[slot], Unlinked(s, slot);
      if t.mapInfo[x].nRefCount == 0 {
        InTableNotTried(hs, s, slot);
        GoodDeleted(hs, t, x, limbo + {x}, dNew);
        LimboShrinks(hs, Deleted(t, x), limbo + {x} - {x}, limbo, dNew);
      }
    }
  }

  lemma InTableNotTried(hs: Hashes, s: AddrState, slot: Slot)
    requires NewTable(hs, s) && slot in s.vvNew
    ensures s.vvNew[slot] in s.mapInfo && !s.mapInfo[s.vvNew[slot]].fInTried
  {
  }

  // Only entries that really are in no table need to be in limbo.
  lemma LimboShrinks(hs: Hashes, s: AddrState, limbo: set<nat>, limbo': set<nat>, dNew: int)
    requires Good(hs, s, limbo, dNew)
    requires forall id | id in s.mapInfo && id in limbo && !s.mapInfo[id].fInTried && s.mapInfo[id].nRefCount == 0 :: id in limbo'
    ensures Good(hs, s, limbo', dNew)
  {
    forall id | id in s.mapInfo
      ensures RefCount(hs, s, limbo', id)
    {
      assert RefCount(hs, s, limbo, id);
    }
    hide AddrIndex, RandomIndex, TriedTable, NewTable, Counts;
  }

  lemma UnlinkedOnly(s: AddrState, slot: Slot)
    requires slot in s.vvNew && s.vvNew[slot] in s.mapInfo && s.mapInfo[s.vvNew[slot]].nRefCount > 0
    ensures ClearedOnly(s, slot, Unlinked(s, slot)) && SameShape(s, Unlinked(s, slot))
  {
  }

  lemma ClearedTouchesOnly(s: AddrState, slot: Slot)
    requires RandomIndex(s)
    requires slot in s.vvNew ==> s.vvNew[slot] in s.mapInfo && s.mapInfo[s.vvNew[slot]].nRefCount > 0
    ensures ClearedOnly(s, slot, Cleared(s, slot))
  {
    hide RandomIndex, Deleted, Unlinked;
    if slot in s.vvNew {
      var x, t := s.vvNew[slot], Unlinked(s, slot);
      UnlinkedOnly(s, slot);
      ShapeKept(s, t);
      if t.mapInfo[x].nRefCount == 0 {
        var u := Deleted(t, x);
        DeletedOnly(t, x);
        forall id | id in s.mapInfo && !Holds(s.vvNew, slot, id)
          ensures SameEntry(s, u, id)
        {
          assert SameEntry(s, t, id) && SameEntry(t, u, id);
        }
      }
    } else {
      assert s.vvNew - {slot} == s.vvNew;
    }
  }

  lemma GoodCounted(hs: Hashes, s: AddrState, limbo: set<nat>, dNew: int, k: int)
    requires Good(hs, s, limbo, dNew)
    ensures Good(hs, s.(nNew := s.nNew + k), limbo, dNew - k)
  {
    var t := s.(nNew := s.nNew + k);
    assert Counts(t, dNew - k) by {
      assert TriedIds(t) == TriedIds(s) && NewIds(t) == NewIds(s);
    }
    hide AddrIndex, RandomIndex, IdsUsed, TriedTable, NewTable, RefCounts, Counts;
    ShapeKept(s, t);
    TablesKept(hs, s, t);
    RefCountsKept(hs, s, t, limbo);
  }

  // Where an entry goes when it is thrown out of the tried table.
  function HomeSlot(hs: Hashes, nKey: nat, info: Info): Slot {
    NewSlot(hs, nKey, NewBucket(hs, nKey, info.addr.service, info.source), info.addr.service)
  }

  ghost predicate OccupantSound(s: AddrState, slot: Slot) {
    slot in s.vvNew ==>
      s.vvNew[slot] in s.mapInfo && s.mapInfo[s.vvNew[slot]].nRefCount > 0 && !s.mapInfo[s.vvNew[slot]].fInTried
  }

  lemma OccupantsSound(hs: Hashes, s: AddrState, slot: Slot, limbo: set<nat>)
    requires NewTable(hs, s) && RefCounts(hs, s, limbo)
    ensures OccupantSound(s, slot)
  {
    if slot in s.vvNew {
      OccupantCounted(hs, s, slot, limbo);
      InTableNotTried(hs, s, slot);
    }
  }

  // The tried entry of a slot moves back to its home in the new table.
  ghost function Readmitted(hs: Hashes, s: AddrState, slot: Slot): AddrState
    requires slot in s.vvTried && s.vvTried[slot] in s.mapInfo && s.mapInfo[s.vvTried[slot]].nRefCount == 0
    requires RandomIndex(s)
    requires OccupantSound(s, HomeSlot(hs, s.nKey, s.mapInfo[s.vvTried[slot]]))
  {
    var x, u := s.vvTried[slot], Evicted(s, slot);
    var home := HomeSlot(hs, s.nKey, s.mapInfo[x]);
    ShapeKept(s, u);
    EvictedOccupant(s, slot, home);
    ClearedTouchesOnly(u, home);
    var c := Cleared(u, home);
    assert SameEntry(u, c, x);
    Linked(c, x, home).(nNew := c.nNew + 1)
  }

  lemma EvictedOccupant(s: AddrState, slot: Slot, home: Slot)
    requires slot in s.vvTried && s.vvTried[slot] in s.mapInfo && s.mapInfo[s.vvTried[slot]].nRefCount == 0
    requires OccupantSound(s, home)
    ensures OccupantSound(Evicted(s, slot), home) && !Holds(s.vvNew, home, s.vvTried[slot])
  {
  }

  lemma GoodReadmitted(hs: Hashes, s: AddrState, slot: Slot, limbo: set<nat>, dNew: int)
    requires Good(hs, s, limbo, dNew) && slot in s.vvTried
    ensures s.vvTried[slot] in s.mapInfo && s.mapInfo[s.vvTried[slot]].nRefCount == 0
    ensures OccupantSound(s, HomeSlot(hs, s.nKey, s.mapInfo[s.vvTried[slot]]))
    ensures Good(hs, Readmitted(hs, s, slot), limbo, dNew)
  {
    hide AddrIndex, RandomIndex, IdsUsed, TriedTable, NewTable, RefCounts, Counts, Cleared, ClearedOnly;
    TriedUncounted(hs, s, slot, limbo);
    var x, u := s.vvTried[slot], Evicted(s, slot);
    var home := HomeSlot(hs, s.nKey, s.mapInfo[x]);
    OccupantsSound(hs, s, home, limbo);
    EvictedOccupant(s, slot, home);
    GoodEvicted(hs, s, slot, limbo, dNew);
    ClearedTouchesOnly(u, home);
    GoodCleared(hs, u, home, limbo + {x}, dNew + 1);
    var c := Cleared(u, home);
    ClearedKeeps(u, home, c, x);
    GoodLinked(hs, c, x, home, limbo + {x}, dNew + 1);
    var l := Linked(c, x, home);
    LimboShrinks(hs, l, limbo + {x} - {x}, limbo, dNew + 1);
    GoodCounted(hs, l, limbo, dNew + 1, 1);
  }

  lemma TriedUncounted(hs: Hashes, s: AddrState, slot: Slot, limbo: set<nat>)
    requires TriedTable(hs, s) && RefCounts(hs, s, limbo) && slot in s.vvTried
    ensures s.vvTried[slot] in s.mapInfo && s.mapInfo[s.vvTried[slot]].nRefCount == 0
  {
    assert RefCount(hs, s, limbo, s.vvTried[slot]);
  }

  lemma ClearedKeeps(s: AddrState, slot: Slot, t: AddrState, x: nat)
    requires ClearedOnly(s, slot, t) && x in s.mapInfo && !Holds(s.vvNew, slot, x)
    ensures x in t.mapInfo && t.mapInfo[x] == s.mapInfo[x].(nRandomPos := t.mapInfo[x].nRandomPos)
    ensures SameEntry(s, t, x) && t.nKey == s.nKey && slot !in t.vvNew
  {
    assert SameEntry(s, t, x);
  }

  lemma ClearedFields(s: AddrState, slot: Slot, t: AddrState)
    requires ClearedOnly(s, slot, t)
    ensures t.nKey == s.nKey && t.nIdCount == s.nIdCount && t.nLastGood == s.nLastGood
    ensures t.vvTried == s.vvTried && t.nTried == s.nTried && t.vvNew == s.vvNew - {slot}
    ensures t.mapInfo.Keys <= s.mapInfo.Keys
  {
  }

  // Readmission moves one entry, and at most drops the one it displaces.
  ghost predicate ReadmittedOnly(hs: Hashes, s: AddrState, slot: Slot, t: AddrState)
    requires slot in s.vvTried && s.vvTried[slot] in s.mapInfo
  {
    var x := s.vvTried[slot];
    var home := HomeSlot(hs, s.nKey, s.mapInfo[x]);
    && t.nKey == s.nKey && t.nIdCount == s.nIdCount && t.nLastGood == s.nLastGood
    && t.vvTried == s.vvTried - {slot} && t.nTried == s.nTried - 1
    && t.vvNew == s.vvNew[home := x]
    && x in t.mapInfo
    && t.mapInfo[x] == s.mapInfo[x].(fInTried := false, nRefCount := 1, nRandomPos := t.mapInfo[x].nRandomPos)
    && (forall id | id in s.mapInfo && id != x && !Holds(s.vvNew, home, id) :: SameEntry(s, t, id))
    && (forall id | id in t.mapInfo :: id in s.mapInfo)
  }

  lemma EvictedOthers(s: AddrState, slot: Slot)
    requires slot in s.vvTried && s.vvTried[slot] in s.mapInfo
    ensures var u, x := Evicted(s, slot), s.vvTried[slot];
            && SameShape(s, u) && u.vvNew == s.vvNew && u.vvTried == s.vvTried - {slot}
            && u.nTried == s.nTried - 1 && u.nLastGood == s.nLastGood
            && u.mapInfo[x] == s.mapInfo[x].(fInTried := false)
            && (forall id | id in s.mapInfo && id != x :: u.mapInfo[id] == s.mapInfo[id])
  {
  }

  lemma LinkedOthers(c: AddrState, x: nat, slot: Slot)
    requires x in c.mapInfo
    ensures var t := Linked(c, x, slot);
            && t.mapInfo.Keys == c.mapInfo.Keys && t.mapInfo[x] == c.mapInfo[x].(nRefCount := c.mapInfo[x].nRefCount + 1)
            && (forall id | id in c.mapInfo && id != x :: t.mapInfo[id] == c.mapInfo[id])
            && t == c.(vvNew := c.vvNew[slot := x], mapInfo := t.mapInfo)
  {
  }

  lemma ReadmittedFromParts(hs: Hashes, s: AddrState, slot: Slot, u: AddrState, c: AddrState, t: AddrState)
    requires slot in s.vvTried && s.vvTried[slot] in s.mapInfo && s.mapInfo[s.vvTried[slot]].nRefCount == 0
    requires u == Evicted(s, slot)
    requires !Holds(s.vvNew, HomeSlot(hs, s.nKey, s.mapInfo[s.vvTried[slot]]), s.vvTried[slot])
    requires ClearedOnly(u, HomeSlot(hs, s.nKey, s.mapInfo[s.vvTried[slot]]), c)
    requires s.vvTried[slot] in c.mapInfo
    requires t == Linked(c, s.vvTried[slot], HomeSlot(hs, s.nKey, s.mapInfo[s.vvTried[slot]])).(nNew := c.nNew + 1)
    ensures ReadmittedOnly(hs, s, slot, t)
  {
    hide ClearedOnly, Evicted, Linked, HomeSlot;
    var x := s.vvTried[slot];
    var home := HomeSlot(hs, s.nKey, s.mapInfo[x]);
    EvictedOthers(s, slot);
    ClearedKeeps(u, home, c, x);
    ClearedFields(u, home, c);
    LinkedOthers(c, x, home);
    ReplaceAfterRemove(s.vvNew, home, x);
    forall id | id in s.mapInfo && id != x && !Holds(s.vvNew, home, id)
      ensures SameEntry(s, t, id)
    {
      ClearedKeeps(u, home, c, id);
    }
  }

  lemma ReadmittedTouchesOnly(hs: Hashes, s: AddrState, slot: Slot)
    requires slot in s.vvTried && s.vvTried[slot] in s.mapInfo && s.mapInfo[s.vvTried[slot]].nRefCount == 0
    requires RandomIndex(s)
    requires OccupantSound(s, HomeSlot(hs, s.nKey, s.mapInfo[s.vvTried[slot]]))
    ensures ReadmittedOnly(hs, s, slot, Readmitted(hs, s, slot))
  {
    hide RandomIndex, Cleared, ClearedOnly, Evicted, Linked, HomeSlot, OccupantSound, ReadmittedOnly;
    var x, u := s.vvTried[slot], Evicted(s, slot);
    var home := HomeSlot(hs, s.nKey, s.mapInfo[x]);
    EvictedOthers(s, slot);
    ShapeKept(s, u);
    EvictedOccupant(s, slot, home);
    OccupantSoundMeans(u, home);
    ClearedTouchesOnly(u, home);
    ClearedKeeps(u, home, Cleared(u, home), x);
    ReadmittedFromParts(hs, s, slot, u, Cleared(u, home), Readmitted(hs, s, slot));
  }

  lemma OtherSlots(m: map<Slot, nat>, slot: Slot, x: nat)
    ensures m[slot := x] - {slot} == m - {slot}
  {
  }

  lemma ReplaceAfterRemove(m: map<Slot, nat>, slot: Slot, x: nat)
    ensures (m - {slot})[slot := x] == m[slot := x]
  {
  }

  lemma OccupantSoundMeans(s: AddrState, slot: Slot)
    requires OccupantSound(s, slot)
    ensures slot in s.vvNew ==> s.vvNew[slot] in s.mapInfo && s.mapInfo[s.vvNew[slot]].nRefCount > 0
  {
  }

  // CAddrMan::MakeTried, after the entry has left the new table.
  ghost function MadeTried(hs: Hashes, w: AddrState, x: nat): AddrState
    requires Good(hs, w, {x}, 1) && x in w.mapInfo && !w.mapInfo[x].fInTried && w.mapInfo[x].nRefCount == 0
  {
    var slot := TriedSlot(hs, w.nKey, w.mapInfo[x].addr.service);
    if slot in w.vvTried then
      GoodReadmitted(hs, w, slot, {x}, 1);
      ReadmittedTouchesOnly(hs, w, slot);
      ReadmittedKeeps(hs, w, slot, x);
      Promoted(hs, Readmitted(hs, w, slot), x)
    else Promoted(hs, w, x)
  }

  lemma ReadmittedKeeps(hs: Hashes, w: AddrState, slot: Slot, x: nat)
    requires Good(hs, w, {x}, 1) && x in w.mapInfo && !w.mapInfo[x].fInTried && w.mapInfo[x].nRefCount == 0
    requires slot in w.vvTried && w.vvTried[slot] in w.mapInfo && w.mapInfo[w.vvTried[slot]].nRefCount == 0
    requires OccupantSound(w, HomeSlot(hs, w.nKey, w.mapInfo[w.vvTried[slot]]))
    requires ReadmittedOnly(hs, w, slot, Readmitted(hs, w, slot))
    ensures x != w.vvTried[slot] && SameEntry(w, Readmitted(hs, w, slot), x)
  {
    assert w.mapInfo[w.vvTried[slot]].fInTried;
    hide AddrIndex, RandomIndex, IdsUsed, TriedTable, NewTable, RefCounts, Counts, Readmitted;
    NowhereNew(hs, w, x, {x});
  }

  lemma GoodMadeTried(hs: Hashes, w: AddrState, x: nat)
    requires Good(hs, w, {x}, 1) && x in w.mapInfo && !w.mapInfo[x].fInTried && w.mapInfo[x].nRefCount == 0
    ensures Consistent(hs, MadeTried(hs, w, x))
  {
    hide AddrIndex, RandomIndex, IdsUsed, TriedTable, NewTable, RefCounts, Counts, Readmitted, Promoted;
    var slot := TriedSlot(hs, w.nKey, w.mapInfo[x].addr.service);
    var r := w;
    if slot in w.vvTried {
      GoodReadmitted(hs, w, slot, {x}, 1);
      ReadmittedTouchesOnly(hs, w, slot);
      ReadmittedKeeps(hs, w, slot, x);
      r := Readmitted(hs, w, slot);
    }
    GoodPromoted(hs, r, x, {x}, 1);
    LimboShrinks(hs, Promoted(hs, r, x), {x} - {x}, {}, 0);
  }

  // What MakeTried achieves: the entry is in its tried slot, and whoever was
  // there before is known still, and stands at home in the new table.
  lemma MadeTriedMoves(hs: Hashes, w: AddrState, x: nat)
    requires Good(hs, w, {x}, 1) && x in w.mapInfo && !w.mapInfo[x].fInTried && w.mapInfo[x].nRefCount == 0
    ensures var t, slot := MadeTried(hs, w, x), TriedSlot(hs, w.nKey, w.mapInfo[x].addr.service);
            && x in t.mapInfo && t.mapInfo[x] == w.mapInfo[x].(fInTried := true, nRandomPos := t.mapInfo[x].nRandomPos)
            && t.vvTried == w.vvTried[slot := x] && t.nKey == w.nKey && t.nLastGood == w.nLastGood
            && (slot !in w.vvTried ==> t.vvNew == w.vvNew && t.nTried == w.nTried + 1)
            && (slot in w.vvTried ==>
                  var old_ := w.vvTried[slot];
                  && old_ in w.mapInfo && old_ in t.mapInfo && !t.mapInfo[old_].fInTried && t.nTried == w.nTried
                  && t.vvNew == w.vvNew[HomeSlot(hs, w.nKey, w.mapInfo[old_]) := old_])
  {
    hide Good, Readmitted, HomeSlot;
    var slot := TriedSlot(hs, w.nKey, w.mapInfo[x].addr.service);
    if slot in w.vvTried {
      GoodReadmitted(hs, w, slot, {x}, 1);
      GoodRandom(hs, w, {x}, 1);
      ReadmittedTouchesOnly(hs, w, slot);
      ReadmittedKeeps(hs, w, slot, x);
      ReplaceAfterRemove(w.vvTried, slot, x);
    }
  }

  lemma GoodRandom(hs: Hashes, s: AddrState, limbo: set<nat>, dNew: int)
    requires Good(hs, s, limbo, dNew)
    ensures RandomIndex(s)
  {
  }

  // The new buckets from `k` on that hold an entry.
  ghost function BucketsFrom(hs: Hashes, s: AddrState, x: nat, k: nat): set<nat>
    requires x in s.mapInfo
  {
    set b | b in BucketsOf(hs, s, x) && k <= b
  }

  ghost function NewWithout(s: AddrState, x: nat, k: nat): map<Slot, nat> {
    map slot | slot in s.vvNew && (s.vvNew[slot] != x || k <= slot.bucket) :: s.vvNew[slot]
  }

  lemma NewWithoutStep(hs: Hashes, s: AddrState, x: nat, k: nat)
    requires NewTable(hs, s) && x in s.mapInfo && k < NEW_BUCKET_COUNT
    ensures var slot := NewSlot(hs, s.nKey, k, s.mapInfo[x].addr.service);
            && NewWithout(s, x, k + 1) == (if Holds(NewWithout(s, x, k), slot, x) then NewWithout(s, x, k) - {slot} else NewWithout(s, x, k))
            && (Holds(NewWithout(s, x, k), slot, x) <==> k in BucketsOf(hs, s, x))
  {
  }

  // An entry withdrawn from the buckets below `k`.
  ghost predicate WithdrawnBelow(hs: Hashes, s: AddrState, x: nat, k: nat, vvNew: map<Slot, nat>, nRefCount: nat)
    requires x in s.mapInfo
  {
    && vvNew == NewWithout(s, x, k)
    && nRefCount == |BucketsFrom(hs, s, x, k)|
  }

  lemma WithdrawStarts(hs: Hashes, s: AddrState, x: nat, limbo: set<nat>)
    requires RefCounts(hs, s, limbo) && x in s.mapInfo
    ensures WithdrawnBelow(hs, s, x, 0, s.vvNew, s.mapInfo[x].nRefCount)
  {
    assert RefCount(hs, s, limbo, x);
    assert BucketsFrom(hs, s, x, 0) == BucketsOf(hs, s, x);
  }

  lemma BucketsStep(hs: Hashes, s: AddrState, x: nat, k: nat)
    requires x in s.mapInfo
    ensures BucketsFrom(hs, s, x, k) == BucketsFrom(hs, s, x, k + 1) + if k in BucketsOf(hs, s, x) then {k} else {}
    ensures k !in BucketsFrom(hs, s, x, k + 1)
  {
    hide BucketsOf;
  }

  lemma WithdrawOne(hs: Hashes, s: AddrState, x: nat, k: nat, vvNew: map<Slot, nat>, nRefCount: nat)
    requires NewTable(hs, s) && x in s.mapInfo && k < NEW_BUCKET_COUNT && WithdrawnBelow(hs, s, x, k, vvNew, nRefCount)
    ensures var slot := NewSlot(hs, s.nKey, k, s.mapInfo[x].addr.service);
            if Holds(vvNew, slot, x) then nRefCount > 0 && WithdrawnBelow(hs, s, x, k + 1, vvNew - {slot}, nRefCount - 1)
            else WithdrawnBelow(hs, s, x, k + 1, vvNew, nRefCount)
  {
    hide NewTable, NewWithout, BucketsFrom, BucketsOf;
    NewWithoutStep(hs, s, x, k);
    BucketsStep(hs, s, x, k);
  }

  lemma WithdrawEnds(hs: Hashes, s: AddrState, x: nat, vvNew: map<Slot, nat>, nRefCount: nat)
    requires NewTable(hs, s) && x in s.mapInfo && WithdrawnBelow(hs, s, x, NEW_BUCKET_COUNT, vvNew, nRefCount)
    ensures nRefCount == 0 && vvNew == Withdrawn(s, x).vvNew
  {
    assert BucketsFrom(hs, s, x, NEW_BUCKET_COUNT) == {};
  }

  // At most entry x, one slot of the new table and its former occupant change.
  ghost predicate AddedOnly(s: AddrState, x: nat, slot: Slot, t: AddrState) {
    && t.nKey == s.nKey && t.vvTried == s.vvTried && t.nTried == s.nTried && t.vvNew - {slot} == s.vvNew - {slot}
    && (forall id | id in s.mapInfo && id != x && !Holds(s.vvNew, slot, id) :: SameEntry(s, t, id))
  }

  // Placing entry x leaves its address alone.
  ghost predicate PlacedOnly(s: AddrState, x: nat, slot: Slot, t: AddrState)
    requires x in s.mapInfo
  {
    AddedOnly(s, x, slot, t) && (x in t.mapInfo ==> t.mapInfo[x].addr == s.mapInfo[x].addr)
  }

  // A slot takes an entry if it is free, or its occupant may be dropped for it.
  predicate MayPlace(s: AddrState, x: nat, slot: Slot, nNow: int)
    requires x in s.mapInfo && OccupantKnown(s, slot)
  {
    || slot !in s.vvNew || s.vvNew[slot] == x
    || IsTerrible(s.mapInfo[s.vvNew[slot]], nNow)
    || (s.mapInfo[s.vvNew[slot]].nRefCount > 1 && s.mapInfo[x].nRefCount == 0)
  }

  // Whether a slot takes an entry that is in no other slot.
  predicate SlotOpen(s: AddrState, slot: Slot, nNow: int) {
    slot in s.vvNew && s.vvNew[slot] in s.mapInfo ==>
      IsTerrible(s.mapInfo[s.vvNew[slot]], nNow) || s.mapInfo[s.vvNew[slot]].nRefCount > 1
  }

  lemma SlotOpenIs(s: AddrState, slot: Slot, nNow: int)
    ensures SlotOpen(s, slot, nNow) <==>
            (slot in s.vvNew && s.vvNew[slot] in s.mapInfo ==>
               !Presentable(s.mapInfo[s.vvNew[slot]], nNow) || s.mapInfo[s.vvNew[slot]].nRefCount >= 2)
  {
    hide IsTerrible, Presentable;
    if slot in s.vvNew && s.vvNew[slot] in s.mapInfo {
      TerribleExactly(s.mapInfo[s.vvNew[slot]], nNow);
    }
  }

  // Where a known entry gains a place, it is counted, and stands in this slot.
  // An entry that is not tried is in the new table already.
  lemma WantedInTable(hs: Hashes, s: AddrState, x: nat, addr: Address, nRnd: nat)
    requires Consistent(hs, s) && x in s.mapInfo && WantsBucket(s.mapInfo[x], addr, nRnd)
    ensures Good(hs, s, {x}, 0) && !s.mapInfo[x].fInTried && 0 < s.mapInfo[x].nRefCount < NEW_BUCKETS_PER_ADDRESS
  {
    hide Good, Pow2;
    InTable(hs, s, x);
  }

  lemma KnownPlaced(s: AddrState, x: nat, slot: Slot, nNow: int, t: AddrState)
    requires PlacedTo(s, x, slot, nNow, t) && s.mapInfo[x].nRefCount > 0
    ensures x in t.mapInfo && t.mapInfo[x].addr == s.mapInfo[x].addr
    ensures t.vvNew != s.vvNew ==> t.vvNew == s.vvNew[slot := x] && t.mapInfo[x].nRefCount == s.mapInfo[x].nRefCount + 1
  {
    hide RandomIndex, MayPlace, Cleared, ClearedOnly;
    if !Holds(s.vvNew, slot, x) && MayPlace(s, x, slot, nNow) {
      OccupantSoundMeans(s, slot);
      ClearedTouchesOnly(s, slot);
      ClearedKeeps(s, slot, Cleared(s, slot), x);
      ClearedFields(s, slot, Cleared(s, slot));
      ReplaceAfterRemove(s.vvNew, slot, x);
    }
  }

  lemma NewEntryPlaces(s: AddrState, u: AddrState, x: nat, slot: Slot, nNow: int)
    requires u.vvNew == s.vvNew && x !in s.mapInfo && x in u.mapInfo && u.mapInfo == s.mapInfo[x := u.mapInfo[x]]
    requires u.mapInfo[x].nRefCount == 0 && OccupantKnown(s, slot)
    ensures MayPlace(u, x, slot, nNow) <==> SlotOpen(s, slot, nNow)
  {
  }

  predicate OccupantKnown(s: AddrState, slot: Slot) {
    slot in s.vvNew ==> s.vvNew[slot] in s.mapInfo
  }

  // What Good_ notes of an entry.
  function Praised(s: AddrState, x: nat, nTime: int): AddrState
    requires x in s.mapInfo
  {
    s.(nLastGood := nTime, mapInfo := s.mapInfo[x := s.mapInfo[x].(nLastSuccess := nTime, nLastTry := nTime, nAttempts := 0)])
  }

  // Entry x has been taken out of the new table and made tried.
  ghost predicate MovedToTried(hs: Hashes, s: AddrState, x: nat, t: AddrState)
    requires x in s.mapInfo
  {
    var w := Withdrawn(s, x).(nNew := s.nNew - 1);
    Good(hs, w, {x}, 1) && !w.mapInfo[x].fInTried && t == MadeTried(hs, w, x)
  }

  // Entry x has been put into a slot, after its occupant was cleared out, or
  // forgotten if it is in no other slot, or left as it was.
  ghost predicate PlacedTo(s: AddrState, x: nat, slot: Slot, nNow: int, t: AddrState) {
    && x in s.mapInfo && RandomIndex(s) && OccupantSound(s, slot)
    && if Holds(s.vvNew, slot, x) then t == s
       else if MayPlace(s, x, slot, nNow) then x in Cleared(s, slot).mapInfo && t == Linked(Cleared(s, slot), x, slot)
       else t == if s.mapInfo[x].nRefCount == 0 then Deleted(s, x) else s
  }

  // A new entry that is in no slot yet.
  function Announced(s: AddrState, addr: Address, source: NetAddr, nTimePenalty: nat): AddrState {
    var c := Created(s, addr, source);
    c.(mapInfo := c.mapInfo[s.nIdCount := c.mapInfo[s.nIdCount].(addr := addr.(nTime := Penalized(addr.nTime, nTimePenalty)))],
       nNew := s.nNew + 1)
  }

  // What a repeated announcement does to an entry: its time and services.
  function Refreshed(info: Info, addr: Address, nTimePenalty: nat, nNow: int): Info {
    var fCurrentlyOnline := nNow - addr.nTime < 24 * 60 * 60;
    var nUpdateInterval := if fCurrentlyOnline then 60 * 60 else 24 * 60 * 60;
    var nTime := if addr.nTime != 0 && (info.addr.nTime == 0 || info.addr.nTime < addr.nTime - nUpdateInterval - nTimePenalty)
                 then Penalized(addr.nTime, nTimePenalty) else info.addr.nTime;
    info.(addr := info.addr.(nTime := nTime, nServices := info.addr.nServices | addr.nServices))
  }

  function Penalized(nTime: nat, nTimePenalty: nat): nat {
    if nTime > nTimePenalty then nTime - nTimePenalty else 0
  }

  // Whether a refreshed entry tries for one more bucket.
  predicate WantsBucket(info: Info, addr: Address, nRnd: nat) {
    && addr.nTime != 0 && (info.addr.nTime == 0 || addr.nTime > info.addr.nTime)
    && !info.fInTried && info.nRefCount != NEW_BUCKETS_PER_ADDRESS
    && nRnd % Pow2(info.nRefCount) == 0
  }

  // The n-th bucket of a scan that starts at nRnd and wraps around.
  function Rotated(n: nat, nRnd: nat): nat {
    (n + nRnd) % NEW_BUCKET_COUNT
  }

  function Attempted(info: Info, fCountFailure: bool, nTime: int, nLastGood: int): Info {
    if fCountFailure && info.nLastCountAttempt < nLastGood
    then info.(nLastTry := nTime, nLastCountAttempt := nTime, nAttempts := info.nAttempts + 1)
    else info.(nLastTry := nTime)
  }

  function SeenAt(info: Info, nTime: nat): Info {
    if nTime - info.addr.nTime > 20 * 60 then info.(addr := info.addr.(nTime := nTime)) else info
  }

  const ADDRMAN_GETADDR_MAX_PCT: nat := 23
  const ADDRMAN_GETADDR_MAX: nat := 2500

  function GetAddrMax(size: nat): nat {
    var n := ADDRMAN_GETADDR_MAX_PCT * size / 100;
    if n > ADDRMAN_GETADDR_MAX then ADDRMAN_GETADDR_MAX else n
  }

  // The acceptable addresses among the first n of vRandom.
  ghost function Quality(s: AddrState, n: nat, nNow: int): seq<Address>
    requires n <= |s.vRandom|
  {
    if n == 0 then []
    else Quality(s, n - 1, nNow) + (if AcceptableAt(s, n - 1, nNow) then [s.mapInfo[s.vRandom[n - 1]].addr] else [])
  }

  ghost predicate AcceptableAt(s: AddrState, i: nat, nNow: int) {
    i < |s.vRandom| && s.vRandom[i] in s.mapInfo && !IsTerrible(s.mapInfo[s.vRandom[i]], nNow)
  }

  // The same entries, in another order of vRandom.
  ghost predicate OnlyShuffled(s: AddrState, t: AddrState) {
    && SameFrame(s, t) && t.mapAddr == s.mapAddr && t.nNew == s.nNew
    && |t.vRandom| == |s.vRandom| && t.mapInfo.Keys == s.mapInfo.Keys
    && (forall id | id in s.mapInfo :: SameEntry(s, t, id))
  }

  lemma ShuffledNothing(s: AddrState)
    ensures OnlyShuffled(s, s)
  {
  }

  lemma SwappedShuffles(s: AddrState, u: AddrState, i: nat, j: nat)
    requires i < |u.vRandom| && j < |u.vRandom| && u.vRandom[i] in u.mapInfo && u.vRandom[j] in u.mapInfo
    requires OnlyShuffled(s, u) && i <= j
    ensures OnlyShuffled(s, Swapped(u, i, j)) && OnlyShuffled(u, Swapped(u, i, j))
    ensures |Swapped(u, i, j).vRandom| == |u.vRandom| && Swapped(u, i, j).vRandom[..i] == u.vRandom[..i]
  {
    SwappedOnly(u, i, j);
    var t := Swapped(u, i, j);
    assert t.mapAddr == u.mapAddr && t.nNew == u.nNew && |t.vRandom| == |u.vRandom| && t.vRandom[..i] == u.vRandom[..i];
    hide Swapped;
    forall id | id in s.mapInfo
      ensures SameEntry(s, t, id)
    {
      assert SameEntry(s, u, id) && SameEntry(u, t, id);
    }
  }

  lemma {:induction false} QualityKept(u: AddrState, t: AddrState, n: nat, nNow: int)
    requires OnlyShuffled(u, t) && n <= |u.vRandom| && t.vRandom[..n] == u.vRandom[..n]
    ensures Quality(t, n, nNow) == Quality(u, n, nNow)
  {
    if n > 0 {
      assert u.vRandom[..n - 1] == u.vRandom[..n][..n - 1] == t.vRandom[..n - 1];
      QualityKept(u, t, n - 1, nNow);
      assert u.vRandom[n - 1] == u.vRandom[..n][n - 1] == t.vRandom[n - 1];
    }
  }

  lemma KnownAt(hs: Hashes, s: AddrState, n: nat, nNow: int)
    requires Consistent(hs, s) && n < |s.vRandom|
    ensures s.vRandom[n] in s.mapInfo
    ensures AcceptableAt(s, n, nNow) <==> !IsTerrible(s.mapInfo[s.vRandom[n]], nNow)
  {
  }

  ghost predicate AcceptableEntry(s: AddrState, id: nat, nNow: int, addr: Address) {
    id in s.mapInfo && s.mapInfo[id].addr == addr && !IsTerrible(s.mapInfo[id], nNow)
  }

  ghost predicate Acceptable(s: AddrState, nNow: int, addr: Address) {
    exists id :: AcceptableEntry(s, id, nNow, addr)
  }

  // Each address is that of an acceptable entry, and no two are of the same peer.
  ghost predicate Drawn(s: AddrState, nNow: int, v: seq<Address>) {
    && (forall k | 0 <= k < |v| :: Acceptable(s, nNow, v[k]))
    && (forall j, k | 0 <= j < k < |v| :: v[j].service.ip != v[k].service.ip)
  }

  ghost predicate AllDrawn(s: AddrState, nNow: int, v: seq<Address>) {
    forall id | id in s.mapInfo && !IsTerrible(s.mapInfo[id], nNow) :: s.mapInfo[id].addr in v
  }

  // The address is that of the entry, which may be given away.
  predicate PresentedBy(mapInfo: map<nat, Info>, id: nat, nNow: int, addr: Address) {
    id in mapInfo && mapInfo[id].addr == addr && Presentable(mapInfo[id], nNow)
  }

  ghost predicate Presented(mapInfo: map<nat, Info>, nNow: int, addr: Address) {
    exists id :: PresentedBy(mapInfo, id, nNow, addr)
  }

  lemma DrawnIs(s: AddrState, nNow: int, v: seq<Address>)
    requires Drawn(s, nNow, v)
    ensures forall k | 0 <= k < |v| :: Presented(s.mapInfo, nNow, v[k])
    ensures forall j, k | 0 <= j < k < |v| :: v[j].service.ip != v[k].service.ip
    ensures AllDrawn(s, nNow, v) ==> forall id | id in s.mapInfo && Presentable(s.mapInfo[id], nNow) :: s.mapInfo[id].addr in v
  {
    hide IsTerrible, Presentable;
    forall id | id in s.mapInfo {
      TerribleExactly(s.mapInfo[id], nNow);
    }
    forall k | 0 <= k < |v|
      ensures Presented(s.mapInfo, nNow, v[k])
    {
      var id :| AcceptableEntry(s, id, nNow, v[k]);
      assert PresentedBy(s.mapInfo, id, nNow, v[k]);
    }
  }

  lemma GetAddrMaxIs(size: nat)
    ensures GetAddrMax(size) <= 2_500 && 100 * GetAddrMax(size) <= 23 * size
    ensures GetAddrMax(size) == 2_500 || 100 * (GetAddrMax(size) + 1) > 23 * size
  {
  }

  lemma {:induction false} QualityFrom(s: AddrState, n: nat, nNow: int, k: nat) returns (i: nat)
    requires n <= |s.vRandom| && k < |Quality(s, n, nNow)|
    ensures i < n && AcceptableAt(s, i, nNow) && s.mapInfo[s.vRandom[i]].addr == Quality(s, n, nNow)[k]
  {
    if k < |Quality(s, n - 1, nNow)| {
      i := QualityFrom(s, n - 1, nNow, k);
    } else {
      i := n - 1;
    }
  }

  lemma {:induction false} QualityHolds(s: AddrState, n: nat, nNow: int, i: nat)
    requires n <= |s.vRandom| && i < n && AcceptableAt(s, i, nNow)
    ensures s.mapInfo[s.vRandom[i]].addr in Quality(s, n, nNow)
  {
    if i < n - 1 {
      QualityHolds(s, n - 1, nNow, i);
    }
  }

  lemma {:induction false} QualityDistinct(hs: Hashes, s: AddrState, n: nat, nNow: int, j: nat, k: nat)
    requires Consistent(hs, s) && n <= |s.vRandom| && j < k < |Quality(s, n, nNow)|
    ensures Quality(s, n, nNow)[j].service.ip != Quality(s, n, nNow)[k].service.ip
  {
    hide IdsUsed, TriedTable, NewTable, RefCounts, Counts, IsTerrible;
    var q := Quality(s, n - 1, nNow);
    if k < |q| {
      QualityDistinct(hs, s, n - 1, nNow, j, k);
    } else {
      var i := QualityFrom(s, n - 1, nNow, j);
      DistinctPeers(s, i, n - 1);
    }
  }

  lemma DistinctPeers(s: AddrState, i: nat, j: nat)
    requires AddrIndex(s) && RandomIndex(s) && i < j < |s.vRandom|
    ensures s.mapInfo[s.vRandom[i]].Ip() != s.mapInfo[s.vRandom[j]].Ip()
  {
  }

  lemma QualityDrawn(hs: Hashes, s: AddrState, n: nat, nNow: int)
    requires Consistent(hs, s) && n <= |s.vRandom|
    ensures Drawn(s, nNow, Quality(s, n, nNow))
    ensures n == |s.vRandom| ==> AllDrawn(s, nNow, Quality(s, n, nNow))
  {
    hide AddrIndex, IdsUsed, TriedTable, NewTable, RefCounts, Counts, IsTerrible, Quality;
    var v := Quality(s, n, nNow);
    forall k | 0 <= k < |v|
      ensures Acceptable(s, nNow, v[k])
    {
      var i := QualityFrom(s, n, nNow, k);
      assert AcceptableEntry(s, s.vRandom[i], nNow, v[k]);
    }
    forall j, k | 0 <= j < k < |v|
      ensures v[j].service.ip != v[k].service.ip
    {
      QualityDistinct(hs, s, n, nNow, j, k);
    }
    if n == |s.vRandom| {
      forall id | id in s.mapInfo && !IsTerrible(s.mapInfo[id], nNow)
        ensures s.mapInfo[id].addr in v
      {
        var i := s.mapInfo[id].nRandomPos;
        assert s.vRandom[i] == id;
        QualityHolds(s, n, nNow, i);
      }
    }
  }

  // The entry of an address, if its port matches too.
  function Found(s: AddrState, service: Service): (r: int)
    ensures r == -1 || (r >= 0 && r in s.mapInfo && s.mapInfo[r].addr.service == service)
  {
    if service.ip in s.mapAddr && s.mapAddr[service.ip] in s.mapInfo && s.mapInfo[s.mapAddr[service.ip]].addr.service == service
    then s.mapAddr[service.ip] else -1
  }

  /** CAddrMan; randomness, the clock and routability come in as parameters. */
  class Manager {
    const hs: Hashes
    var nKey: nat
    var nIdCount: nat
    var mapInfo: map<nat, Info>
    var mapAddr: map<NetAddr, nat>
    var vRandom: seq<nat>
    var nTried: int
    var vvTried: map<Slot, nat>
    var nNew: int
    var vvNew: map<Slot, nat>
    var nLastGood: int

    function State(): AddrState
      reads this
    {
      AddrState(nKey, nIdCount, mapInfo, mapAddr, vRandom, nTried, vvTried, nNew, vvNew, nLastGood)
    }

    constructor (hs: Hashes, nKey: nat)
      ensures this.hs == hs && State() == Empty(nKey) && Consistent(hs, State())
    {
      this.hs := hs;
      new;
      Clear(nKey);
      GoodEmpty(hs, nKey);
    }

    method Clear(nKey: nat)
      modifies this
      ensures State() == Empty(nKey)
      ensures mapInfo == map[] && mapAddr == map[] && vRandom == [] && vvTried == map[] && vvNew == map[]
      ensures this.nKey == nKey && nIdCount == nTried == nNew == 0 && nLastGood == 1
    {
      vRandom, this.nKey := [], nKey;
      vvNew, vvTried := map[], map[];
      nIdCount, nTried, nNew, nLastGood := 0, 0, 0, 1;
      mapInfo, mapAddr := map[], map[];
    }

    method SwapRandom(nRndPos1: nat, nRndPos2: nat)
      requires nRndPos1 < |vRandom| && nRndPos2 < |vRandom|
      requires vRandom[nRndPos1] in mapInfo && vRandom[nRndPos2] in mapInfo
      modifies this`mapInfo, this`vRandom
      ensures State() == Swapped(old(State()), nRndPos1, nRndPos2)
    {
      if nRndPos1 == nRndPos2 {
        return;
      }
      var nId1, nId2 := vRandom[nRndPos1], vRandom[nRndPos2];
      mapInfo := mapInfo[nId1 := mapInfo[nId1].(nRandomPos := nRndPos2)];
      mapInfo := mapInfo[nId2 := mapInfo[nId2].(nRandomPos := nRndPos1)];
      vRandom := vRandom[nRndPos1 := nId2];
      vRandom := vRandom[nRndPos2 := nId1];
    }

    method Delete(nId: nat)
      requires RandomIndex(State()) && nId in mapInfo && !mapInfo[nId].fInTried && mapInfo[nId].nRefCount == 0
      modifies this
      ensures State() == Deleted(old(State()), nId)
    {
      hide RandomIndex, Swapped, Placed;
      SwappedToEnd(State(), nId);
      SwappedOnly(State(), mapInfo[nId].nRandomPos, |vRandom| - 1);
      SwapRandom(mapInfo[nId].nRandomPos, |vRandom| - 1);
      vRandom := vRandom[..|vRandom| - 1];
      mapAddr := mapAddr - {mapInfo[nId].Ip()};
      mapInfo := mapInfo - {nId};
      nNew := nNew - 1;
    }

    method ClearNew(slot: Slot)
      requires RandomIndex(State()) && OccupantSound(State(), slot)
      modifies this
      ensures State() == Cleared(old(State()), slot)
    {
      if slot in vvNew {
        var nIdDelete := vvNew[slot];
        ShapeKept(State(), Unlinked(State(), slot));
        mapInfo := mapInfo[nIdDelete := mapInfo[nIdDelete].(nRefCount := mapInfo[nIdDelete].nRefCount - 1)];
        vvNew := vvNew - {slot};
        if mapInfo[nIdDelete].nRefCount == 0 {
          Delete(nIdDelete);
        }
      }
    }

    method Create(addr: Address, source: NetAddr) returns (nId: nat)
      modifies this
      ensures nId == old(nIdCount) && State() == Created(old(State()), addr, source)
    {
      nId := nIdCount;
      nIdCount := nIdCount + 1;
      mapInfo := mapInfo[nId := Info(addr, source, 0, 0, 0, 0, 0, false, -1)];
      mapAddr := mapAddr[addr.service.ip := nId];
      mapInfo := mapInfo[nId := mapInfo[nId].(nRandomPos := |vRandom|)];
      vRandom := vRandom + [nId];
    }

    // The first loop of MakeTried: out of every new bucket, down to count zero.
    method WithdrawFromNew(nId: nat)
      requires NewTable(hs, State()) && RefCounts(hs, State(), {}) && nId in mapInfo
      modifies this`mapInfo, this`vvNew
      ensures State() == Withdrawn(old(State()), nId)
    {
      ghost var s := State();
      WithdrawStarts(hs, s, nId, {});
      hide NewTable, RefCounts, WithdrawnBelow, Withdrawn;
      for bucket := 0 to NEW_BUCKET_COUNT
        invariant nId in mapInfo && mapInfo == s.mapInfo[nId := s.mapInfo[nId].(nRefCount := mapInfo[nId].nRefCount)]
        invariant WithdrawnBelow(hs, s, nId, bucket, vvNew, mapInfo[nId].nRefCount)
      {
        WithdrawOne(hs, s, nId, bucket, vvNew, mapInfo[nId].nRefCount);
        var slot := NewSlot(hs, nKey, bucket, mapInfo[nId].addr.service);
        if slot in vvNew && vvNew[slot] == nId {
          vvNew := vvNew - {slot};
          mapInfo := mapInfo[nId := mapInfo[nId].(nRefCount := mapInfo[nId].nRefCount - 1)];
        }
      }
      WithdrawEnds(hs, s, nId, vvNew, mapInfo[nId].nRefCount);
      assert mapInfo[nId].nRefCount == 0;
      WithdrawnIs(s, nId, State());
    }

    // Takes the occupant of a tried slot out of the tried table.
    method TakeFromTried(slot: Slot) returns (nIdEvict: nat)
      requires slot in vvTried && vvTried[slot] in mapInfo
      modifies this`mapInfo, this`vvTried, this`nTried
      ensures nIdEvict == old(vvTried[slot]) && State() == Evicted(old(State()), slot)
    {
      nIdEvict := vvTried[slot];
      mapInfo := mapInfo[nIdEvict := mapInfo[nIdEvict].(fInTried := false)];
      vvTried := vvTried - {slot};
      nTried := nTried - 1;
    }

    // Enters an entry that is in no table into a free new slot.
    method AdmitToNew(nId: nat, slot: Slot)
      requires nId in mapInfo && mapInfo[nId].nRefCount == 0
      modifies this`mapInfo, this`vvNew, this`nNew
      ensures State() == Linked(old(State()), nId, slot).(nNew := old(nNew) + 1)
    {
      mapInfo := mapInfo[nId := mapInfo[nId].(nRefCount := 1)];
      vvNew := vvNew[slot := nId];
      nNew := nNew + 1;
    }

    // Throws the occupant of a tried slot back into the new table.
    method EvictTried(slot: Slot)
      requires RandomIndex(State()) && slot in vvTried
      requires vvTried[slot] in mapInfo && mapInfo[vvTried[slot]].nRefCount == 0
      requires OccupantSound(State(), HomeSlot(hs, nKey, mapInfo[vvTried[slot]]))
      modifies this
      ensures State() == Readmitted(hs, old(State()), slot)
    {
      hide RandomIndex, Cleared, ClearedOnly, Evicted, HomeSlot, OccupantSound, Linked;
      var home := HomeSlot(hs, nKey, mapInfo[vvTried[slot]]);
      EvictedOthers(State(), slot);
      EvictedOccupant(State(), slot, home);
      ShapeKept(State(), Evicted(State(), slot));
      var nIdEvict := TakeFromTried(slot);
      ghost var u := State();
      OccupantSoundMeans(u, home);
      ClearedTouchesOnly(u, home);
      ClearedKeeps(u, home, Cleared(u, home), nIdEvict);
      ClearNew(home);
      assert home !in vvNew;
      AdmitToNew(nIdEvict, home);
    }

    // Moves an entry from the new to the tried table.
    method MakeTried(nId: nat)
      requires Consistent(hs, State()) && nId in mapInfo && !mapInfo[nId].fInTried
      modifies this
      ensures Good(hs, Withdrawn(old(State()), nId).(nNew := old(nNew) - 1), {nId}, 1)
      ensures State() == MadeTried(hs, Withdrawn(old(State()), nId).(nNew := old(nNew) - 1), nId)
      ensures Consistent(hs, State())
    {
      hide AddrIndex, RandomIndex, IdsUsed, TriedTable, NewTable, RefCounts, Counts, Readmitted;
      GoodWithdrawn(hs, State(), nId, {}, 0);
      assert {} + {nId} == {nId};
      WithdrawFromNew(nId);
      GoodCounted(hs, State(), {nId}, 0, -1);
      nNew := nNew - 1;
      assert mapInfo[nId].nRefCount == 0;
      ghost var w := State();
      GoodMadeTried(hs, w, nId);
      var slot := TriedSlot(hs, nKey, mapInfo[nId].addr.service);
      if slot in vvTried {
        GoodReadmitted(hs, w, slot, {nId}, 1);
        ReadmittedTouchesOnly(hs, w, slot);
        ReadmittedKeeps(hs, w, slot, nId);
        EvictTried(slot);
      }
      assert slot !in vvTried;
      vvTried := vvTried[slot := nId];
      nTried := nTried + 1;
      mapInfo := mapInfo[nId := mapInfo[nId].(fInTried := true)];
    }

    // The scan of Good_, starting at a random bucket: it always finds one for
    // an entry that is in the new table.
    method FindNewBucket(nId: nat, nRnd: nat) returns (nUBucket: int)
      requires nId in mapInfo
      ensures nUBucket == -1 || (0 <= nUBucket && nUBucket in BucketsOf(hs, State(), nId))
      ensures BucketsOf(hs, State(), nId) != {} ==> nUBucket != -1
    {
      var n := 0;
      while n < NEW_BUCKET_COUNT
        invariant 0 <= n <= NEW_BUCKET_COUNT
        invariant forall m | 0 <= m < n :: Rotated(m, nRnd) !in BucketsOf(hs, State(), nId)
      {
        var nB := Rotated(n, nRnd);
        var slot := NewSlot(hs, nKey, nB, mapInfo[nId].addr.service);
        if slot in vvNew && vvNew[slot] == nId {
          return nB;
        }
        n := n + 1;
      }
      forall b: nat | b < NEW_BUCKET_COUNT
        ensures b !in BucketsOf(hs, State(), nId)
      {
        var m := EveryBucketSeen(b, nRnd);
        assert Rotated(m, nRnd) !in BucketsOf(hs, State(), nId);
      }
      return -1;
    }

    // The entry of an address, if its port matches too.
    function FindService(service: Service): (r: int)
      reads this
      ensures r == -1 || (r >= 0 && r in mapInfo && mapInfo[r].addr.service == service)
    {
      Found(State(), service)
    }

    // Changes statistics of one entry only.
    method Touch(nId: nat, info: Info)
      requires Consistent(hs, State()) && nId in mapInfo
      requires info.addr.service == mapInfo[nId].addr.service && info.nRefCount == mapInfo[nId].nRefCount
      requires info.fInTried == mapInfo[nId].fInTried && info.nRandomPos == mapInfo[nId].nRandomPos
      modifies this`mapInfo
      ensures Consistent(hs, State()) && mapInfo == old(mapInfo)[nId := info]
    {
      hide AddrIndex, RandomIndex, IdsUsed, TriedTable, NewTable, RefCounts, Counts;
      GoodTouched(hs, State(), State().(mapInfo := mapInfo[nId := info]), {}, 0);
      mapInfo := mapInfo[nId := info];
    }

    // The last part of Good_, for an entry in the new table.  The exit for "no
    // bucket found" is never taken.
    method MoveToTried(nId: nat, nRnd: nat)
      requires Consistent(hs, State()) && nId in mapInfo && !mapInfo[nId].fInTried
      modifies this
      ensures Consistent(hs, State()) && nKey == old(nKey) && nLastGood == old(nLastGood)
      ensures nId in mapInfo && mapInfo[nId] == old(mapInfo[nId]).(nRefCount := 0, fInTried := true, nRandomPos := mapInfo[nId].nRandomPos)
      ensures vvTried == old(vvTried)[TriedSlot(hs, nKey, mapInfo[nId].addr.service) := nId]
      ensures MovedToTried(hs, old(State()), nId, State())
    {
      hide AddrIndex, RandomIndex, IdsUsed, TriedTable, NewTable, RefCounts, Counts, MadeTried, BucketsOf;
      var nUBucket := FindNewBucket(nId, nRnd);
      InSomeBucket(hs, State(), nId);
      assert nUBucket != -1;
      ghost var w := Withdrawn(State(), nId).(nNew := nNew - 1);
      MakeTried(nId);
      MadeTriedMoves(hs, w, nId);
    }

    // Marks a service as good: afterwards, if it is known, it is in its tried slot.
    method Good_(service: Service, nTime: int, nRnd: nat)
      requires Consistent(hs, State())
      modifies this
      ensures Consistent(hs, State()) && nKey == old(nKey)
      ensures old(FindService(service)) == -1 ==> State() == old(State()).(nLastGood := nTime)
      ensures var nId := old(FindService(service));
              nId != -1 ==>
                && nId in mapInfo && mapInfo[nId].fInTried
                && vvTried == old(vvTried)[TriedSlot(hs, nKey, service) := nId]
                && mapInfo[nId].nLastSuccess == nTime && mapInfo[nId].nLastTry == nTime && mapInfo[nId].nAttempts == 0
      ensures var nId := old(FindService(service));
              nId != -1 ==>
                && 0 <= nId && nId in old(mapInfo)
                && var u := Praised(old(State()), nId, nTime);
                   if old(mapInfo)[nId].fInTried then State() == u else MovedToTried(hs, u, nId, State())
    {
      hide AddrIndex, RandomIndex, IdsUsed, TriedTable, NewTable, RefCounts, Counts;
      nLastGood := nTime;
      GoodTouched(hs, old(State()), State(), {}, 0);
      var nId := FindService(service);
      if nId == -1 {
        return;
      }
      var info := mapInfo[nId].(nLastSuccess := nTime, nLastTry := nTime, nAttempts := 0);
      Touch(nId, info);
      if info.fInTried {
        AlreadyInSlot(hs, State(), nId);
        return;
      }
      MoveToTried(nId, nRnd);
    }

    // Puts an entry into a slot, after whoever is there has been cleared out.
    method InsertNew(nId: nat, slot: Slot)
      requires Good(hs, State(), {nId}, 0) && OccupantSound(State(), slot) && !Holds(vvNew, slot, nId)
      requires nId in mapInfo && !mapInfo[nId].fInTried && mapInfo[nId].nRefCount < NEW_BUCKETS_PER_ADDRESS
      requires slot.bucket < NEW_BUCKET_COUNT && slot == NewSlot(hs, nKey, slot.bucket, mapInfo[nId].addr.service)
      modifies this
      ensures Consistent(hs, State()) && Holds(vvNew, slot, nId) && nId in mapInfo
      ensures PlacedOnly(old(State()), nId, slot, State())
      ensures RandomIndex(old(State())) && nId in Cleared(old(State()), slot).mapInfo
      ensures State() == Linked(Cleared(old(State()), slot), nId, slot)
    {
      hide AddrIndex, RandomIndex, IdsUsed, TriedTable, NewTable, RefCounts, Counts, Cleared, Linked, ClearedOnly, OccupantSound;
      ghost var s := State();
      OccupantSoundMeans(s, slot);
      GoodCleared(hs, s, slot, {nId}, 0);
      ClearedTouchesOnly(s, slot);
      ClearNew(slot);
      ghost var c := State();
      ClearedKeeps(s, slot, c, nId);
      ClearedFields(s, slot, c);
      GoodLinked(hs, c, nId, slot, {nId}, 0);
      LimboShrinks(hs, Linked(c, nId, slot), {nId} - {nId}, {}, 0);
      LinkedOthers(c, nId, slot);
      LinkEntry(nId, slot);
      forall id | id in s.mapInfo && id != nId && !Holds(s.vvNew, slot, id)
        ensures SameEntry(s, State(), id)
      {
        ClearedKeeps(s, slot, c, id);
      }
      ReplaceAfterRemove(s.vvNew, slot, nId);
      OtherSlots(s.vvNew, slot, nId);
    }

    method LinkEntry(nId: nat, slot: Slot)
      requires nId in mapInfo
      modifies this`mapInfo, this`vvNew
      ensures State() == Linked(old(State()), nId, slot)
    {
      mapInfo := mapInfo[nId := mapInfo[nId].(nRefCount := mapInfo[nId].nRefCount + 1)];
      vvNew := vvNew[slot := nId];
    }

    // The second half of Add_: gives an entry one more place in the new table
    // if the slot of its source is free or its occupant may be dropped, and
    // forgets an entry that ends up in no table.
    method PlaceInNew(nId: nat, source: NetAddr, nNow: int)
      requires Good(hs, State(), {nId}, 0)
      requires nId in mapInfo && !mapInfo[nId].fInTried && mapInfo[nId].nRefCount < NEW_BUCKETS_PER_ADDRESS
      modifies this
      ensures Consistent(hs, State())
      ensures PlacedOnly(old(State()), nId, old(SourceSlot(nId, source)), State())
      ensures OccupantKnown(old(State()), old(SourceSlot(nId, source)))
      ensures Holds(vvNew, old(SourceSlot(nId, source)), nId) <==> MayPlace(old(State()), nId, old(SourceSlot(nId, source)), nNow)
      ensures nId in mapInfo <==> MayPlace(old(State()), nId, old(SourceSlot(nId, source)), nNow) || old(mapInfo[nId].nRefCount) > 0
      ensures PlacedTo(old(State()), nId, old(SourceSlot(nId, source)), nNow, State())
    {
      hide AddrIndex, RandomIndex, IdsUsed, TriedTable, NewTable, RefCounts, Counts, Deleted;
      ghost var s := State();
      var slot := SourceSlot(nId, source);
      if slot in vvNew && vvNew[slot] == nId {
        OccupantCounted(hs, s, slot, {nId});
        LimboShrinks(hs, s, {nId}, {}, 0);
        return;
      }
      OccupantsSound(hs, s, slot, {nId});
      var fInsert := slot !in vvNew;
      if !fInsert {
        var infoExisting := mapInfo[vvNew[slot]];
        fInsert := IsTerrible(infoExisting, nNow) || (infoExisting.nRefCount > 1 && mapInfo[nId].nRefCount == 0);
      }
      if fInsert {
        InsertNew(nId, slot);
      } else if mapInfo[nId].nRefCount == 0 {
        GoodDeleted(hs, s, nId, {nId}, 0);
        DeletedOnly(s, nId);
        Delete(nId);
        LimboShrinks(hs, State(), {nId} - {nId}, {}, 0);
      } else {
        LimboShrinks(hs, s, {nId}, {}, 0);
      }
    }

    // The first half of Add_, for an address that is known already.
    method Refresh(nId: nat, addr: Address, nTimePenalty: nat, nNow: int, nRnd: nat) returns (fGoOn: bool)
      requires Consistent(hs, State()) && nId in mapInfo
      modifies this`mapInfo
      ensures Consistent(hs, State())
      ensures mapInfo == old(mapInfo)[nId := Refreshed(old(mapInfo[nId]), addr, nTimePenalty, nNow)]
      ensures fGoOn <==> WantsBucket(mapInfo[nId], addr, nRnd)
    {
      hide AddrIndex, RandomIndex, IdsUsed, TriedTable, NewTable, RefCounts, Counts;
      var info := Refreshed(mapInfo[nId], addr, nTimePenalty, nNow);
      Touch(nId, info);
      if addr.nTime == 0 || (info.addr.nTime != 0 && addr.nTime <= info.addr.nTime) {
        return false;
      }
      if info.fInTried || info.nRefCount == NEW_BUCKETS_PER_ADDRESS {
        return false;
      }
      var nFactor := 1;
      for n := 0 to info.nRefCount
        invariant nFactor == Pow2(n)
      {
        nFactor := nFactor * 2;
      }
      fGoOn := !(nFactor > 1 && nRnd % nFactor != 0);
    }

    // The first half of Add_, for a new address.
    method Announce(addr: Address, source: NetAddr, nTimePenalty: nat) returns (nId: nat)
      requires Consistent(hs, State()) && addr.service.ip !in mapAddr
      modifies this
      ensures nId == old(nIdCount) && Good(hs, State(), {nId}, 0) && nId in mapInfo && nId !in old(mapInfo)
      ensures mapInfo == old(mapInfo)[nId := mapInfo[nId]] && vvNew == old(vvNew) && vvTried == old(vvTried)
      ensures nKey == old(nKey) && nTried == old(nTried)
      ensures mapInfo[nId].addr == addr.(nTime := Penalized(addr.nTime, nTimePenalty)) && mapInfo[nId].source == source
      ensures mapInfo[nId].nRefCount == 0 && !mapInfo[nId].fInTried
      ensures State() == Announced(old(State()), addr, source, nTimePenalty)
    {
      hide AddrIndex, RandomIndex, TriedTable, NewTable, RefCounts, Counts;
      ghost var s := State();
      GoodCreated(hs, s, addr, source, {}, 0);
      assert {} + {s.nIdCount} == {s.nIdCount};
      CreatedAddr(s, addr, source);
      nId := Create(addr, source);
      ghost var c := State();
      mapInfo := mapInfo[nId := mapInfo[nId].(addr := addr.(nTime := Penalized(addr.nTime, nTimePenalty)))];
      GoodTouched(hs, c, State(), {nId}, 1);
      GoodCounted(hs, State(), {nId}, 1, 1);
      nNew := nNew + 1;
    }

    // Add_ of an address that is known: it may gain a bucket.
    method AddKnown(addr: Address, source: NetAddr, nTimePenalty: nat, nNow: int, nRnd: nat)
      requires Consistent(hs, State()) && addr.service.ip in mapAddr
      modifies this
      ensures Consistent(hs, State())
      ensures var s, x, slot := old(State()), AddId(old(State()), addr), AddSlot(hs, old(State()), addr, source);
              var u := AddStart(s, addr, source, nTimePenalty, nNow);
              && x in s.mapInfo && x in u.mapInfo && x in mapInfo && addr.service.ip in mapAddr && AddedOnly(s, x, slot, State())
              && u.vvNew == s.vvNew && u.mapInfo[x].nRefCount == s.mapInfo[x].nRefCount && u.mapInfo[x].fInTried == s.mapInfo[x].fInTried
              && if WantsBucket(u.mapInfo[x], addr, nRnd)
                 then 0 < u.mapInfo[x].nRefCount < NEW_BUCKETS_PER_ADDRESS && PlacedTo(u, x, slot, nNow, State()) else State() == u
    {
      hide Good, OccupantKnown, MayPlace, Refreshed, AddedOnly, PlacedTo, NewSlot, NewBucket, WantsBucket;
      ghost var s, slot := State(), AddSlot(hs, State(), addr, source);
      KnownAddress(hs, s, addr.service.ip);
      OccupantsKnown(hs, s, slot);
      var nId := mapAddr[addr.service.ip];
      RefreshedKeeps(mapInfo[nId], addr, nTimePenalty, nNow);
      var fGoOn := Refresh(nId, addr, nTimePenalty, nNow, nRnd);
      ghost var u := State();
      ChangedOnly(s, nId, slot, u);
      if fGoOn {
        WantedInTable(hs, u, nId, addr, nRnd);
        PlaceInNew(nId, source, nNow);
        KnownPlaced(u, nId, slot, nNow, State());
        ChangedThenAdded(s, u, nId, slot, State());
        EntryAddressed(hs, State(), nId);
      }
    }

    // Add_ of an address that is not.
    method AddUnknown(addr: Address, source: NetAddr, nTimePenalty: nat, nNow: int)
      requires Consistent(hs, State()) && addr.service.ip !in mapAddr
      modifies this
      ensures Consistent(hs, State())
      ensures var s, x, slot := old(State()), old(nIdCount), AddSlot(hs, old(State()), addr, source);
              && AddedOnly(s, x, slot, State()) && PlacedTo(AddStart(s, addr, source, nTimePenalty, nNow), x, slot, nNow, State())
              && x in AddStart(s, addr, source, nTimePenalty, nNow).mapInfo && (x in mapInfo <==> SlotOpen(s, slot, nNow))
              && (x in mapInfo ==> mapInfo[x].addr == addr.(nTime := Penalized(addr.nTime, nTimePenalty)))
    {
      hide Good, OccupantKnown, MayPlace, SlotOpen, AddedOnly, PlacedTo, NewSlot, NewBucket, Penalized, Announced;
      ghost var s, slot := State(), AddSlot(hs, State(), addr, source);
      OccupantsKnown(hs, s, slot);
      var nId := Announce(addr, source, nTimePenalty);
      ghost var u := State();
      NewEntryPlaces(s, u, nId, slot, nNow);
      PlaceInNew(nId, source, nNow);
      ChangedThenAdded(s, u, nId, slot, State());
    }

    // Adds one address told by `source`.  The tried table is never touched, and
    // at most one other entry, in the slot of that source, is lost.
    method Add_(addr: Address, source: NetAddr, nPenalty: nat, fRoutable: bool, nNow: int, nRnd: nat) returns (fNew: bool)
      requires Consistent(hs, State())
      modifies this
      ensures Consistent(hs, State())
      ensures !fRoutable ==> State() == old(State())
      ensures fNew <==> fRoutable && addr.service.ip !in old(mapAddr)
      ensures AddedOnly(old(State()), AddId(old(State()), addr), AddSlot(hs, old(State()), addr, source), State())
      ensures addr.service.ip in old(mapAddr) ==> addr.service.ip in mapAddr
      ensures var slot := AddSlot(hs, old(State()), addr, source);
              fNew ==> (old(nIdCount) in mapInfo <==>
                          slot in old(vvNew) && old(vvNew)[slot] in old(mapInfo) ==>
                            var occupant := old(mapInfo)[old(vvNew)[slot]];
                            !Presentable(occupant, nNow) || occupant.nRefCount >= 2)
      ensures !fNew && vvNew != old(vvNew) ==>
                && addr.service.ip in old(mapAddr)
                && var x := old(mapAddr)[addr.service.ip];
                   && x in old(mapInfo) && x in mapInfo && !old(mapInfo)[x].fInTried
                   && old(mapInfo)[x].nRefCount < 8 && nRnd % Pow2(old(mapInfo)[x].nRefCount) == 0
                   && addr.nTime > mapInfo[x].addr.nTime && mapInfo[x].nRefCount == old(mapInfo)[x].nRefCount + 1
                   && vvNew == old(vvNew)[AddSlot(hs, old(State()), addr, source) := x]
      ensures fNew && old(nIdCount) in mapInfo ==>
                mapInfo[old(nIdCount)].addr == addr.(nTime := Penalized(addr.nTime, if addr.service.ip == source then 0 else nPenalty))
      ensures fRoutable ==>
                var u := AddStart(old(State()), addr, source, if addr.service.ip == source then 0 else nPenalty, nNow);
                var x := AddId(old(State()), addr);
                && x in u.mapInfo
                && if !fNew && !WantsBucket(u.mapInfo[x], addr, nRnd) then State() == u
                   else PlacedTo(u, x, AddSlot(hs, old(State()), addr, source), nNow, State())
    {
      hide Good, SlotOpen, AddedOnly, PlacedTo, NewSlot, NewBucket, Pow2, Presentable, Penalized, AddStart;
      fNew := false;
      ghost var s := State();
      ghost var slot := AddSlot(hs, s, addr, source);
      if !fRoutable {
        NothingAdded(s, AddId(s, addr), slot);
        return;
      }
      var nTimePenalty := if addr.service.ip == source then 0 else nPenalty;
      if addr.service.ip in mapAddr {
        ghost var u, x := AddStart(s, addr, source, nTimePenalty, nNow), AddId(s, addr);
        AddKnown(addr, source, nTimePenalty, nNow, nRnd);
        if vvNew != s.vvNew {
          KnownPlaced(u, x, slot, nNow, State());
        }
      } else {
        AddUnknown(addr, source, nTimePenalty, nNow);
        SlotOpenIs(s, slot, nNow);
        fNew := true;
      }
    }

    method Attempt_(service: Service, fCountFailure: bool, nTime: int)
      requires Consistent(hs, State())
      modifies this`mapInfo
      ensures Consistent(hs, State())
      ensures var nId := old(FindService(service));
              if nId == -1 then mapInfo == old(mapInfo)
              else nId in old(mapInfo) && mapInfo == old(mapInfo)[nId := Attempted(old(mapInfo[nId]), fCountFailure, nTime, nLastGood)]
    {
      hide AddrIndex, RandomIndex, IdsUsed, TriedTable, NewTable, RefCounts, Counts;
      var nId := FindService(service);
      if nId != -1 {
        var info := mapInfo[nId].(nLastTry := nTime);
        if fCountFailure && info.nLastCountAttempt < nLastGood {
          info := info.(nLastCountAttempt := nTime, nAttempts := info.nAttempts + 1);
        }
        Touch(nId, info);
      }
    }

    method Connected_(service: Service, nTime: nat)
      requires Consistent(hs, State())
      modifies this`mapInfo
      ensures Consistent(hs, State())
      ensures var nId := old(FindService(service));
              if nId == -1 then mapInfo == old(mapInfo)
              else nId in old(mapInfo) && mapInfo == old(mapInfo)[nId := SeenAt(old(mapInfo[nId]), nTime)]
    {
      hide AddrIndex, RandomIndex, IdsUsed, TriedTable, NewTable, RefCounts, Counts;
      var nId := FindService(service);
      if nId != -1 {
        var nUpdateInterval := 20 * 60;
        if nTime - mapInfo[nId].addr.nTime > nUpdateInterval {
          Touch(nId, mapInfo[nId].(addr := mapInfo[nId].addr.(nTime := nTime)));
        }
      }
    }

    method SetServices_(service: Service, nServices: bv64)
      requires Consistent(hs, State())
      modifies this`mapInfo
      ensures Consistent(hs, State())
      ensures var nId := old(FindService(service));
              if nId == -1 then mapInfo == old(mapInfo)
              else nId in old(mapInfo)
                   && mapInfo == old(mapInfo)[nId := old(mapInfo[nId]).(addr := old(mapInfo[nId]).addr.(nServices := nServices))]
    {
      hide AddrIndex, RandomIndex, IdsUsed, TriedTable, NewTable, RefCounts, Counts;
      var nId := FindService(service);
      if nId != -1 {
        Touch(nId, mapInfo[nId].(addr := mapInfo[nId].addr.(nServices := nServices)));
      }
    }

    // Draws addresses at random by shuffling vRandom from the front; `rnd` is
    // the source of randomness.  The answer holds no address twice, none that
    // is terrible, and at most the permitted share of all entries.
    method GetAddr_(nNow: int, rnd: nat -> nat) returns (vAddr: seq<Address>)
      requires Consistent(hs, State())
      modifies this`mapInfo, this`vRandom
      ensures Consistent(hs, State()) && OnlyShuffled(old(State()), State())
      ensures |vAddr| <= 2_500 && 100 * |vAddr| <= 23 * |vRandom|
      ensures forall k | 0 <= k < |vAddr| :: Presented(mapInfo, nNow, vAddr[k])
      ensures forall j, k | 0 <= j < k < |vAddr| :: vAddr[j].service.ip != vAddr[k].service.ip
      ensures || |vAddr| == 2_500 || 100 * (|vAddr| + 1) > 23 * |vRandom|
              || forall id | id in mapInfo && Presentable(mapInfo[id], nNow) :: mapInfo[id].addr in vAddr
    {
      hide Good, OnlyShuffled, Swapped, AcceptableAt;
      var nNodes := ADDRMAN_GETADDR_MAX_PCT * |vRandom| / 100;
      if nNodes > ADDRMAN_GETADDR_MAX {
        nNodes := ADDRMAN_GETADDR_MAX;
      }
      ghost var s, size := State(), |vRandom|;
      ShuffledNothing(s);
      vAddr := [];
      var n := 0;
      while n < |vRandom|
        invariant n <= |vRandom| == size && |vAddr| <= nNodes
        invariant Consistent(hs, State()) && OnlyShuffled(s, State())
        invariant vAddr == Quality(State(), n, nNow)
      {
        if |vAddr| >= nNodes {
          break;
        }
        var nRndPos := rnd(n) % (|vRandom| - n) + n;
        ghost var u := State();
        GoodSwapped(hs, u, n, nRndPos, {}, 0);
        SwappedShuffles(s, u, n, nRndPos);
        SwapRandom(n, nRndPos);
        QualityKept(u, State(), n, nNow);
        KnownAt(hs, State(), n, nNow);
        var ai := mapInfo[vRandom[n]];
        if !IsTerrible(ai, nNow) {
          vAddr := vAddr + [ai.addr];
        }
        n := n + 1;
      }
      QualityDrawn(hs, State(), n, nNow);
      DrawnIs(State(), nNow, vAddr);
      GetAddrMaxIs(size);
    }

    function SourceSlot(nId: nat, source: NetAddr): Slot
      requires nId in mapInfo
      reads this
    {
      NewSlot(hs, nKey, NewBucket(hs, nKey, mapInfo[nId].addr.service, source), mapInfo[nId].addr.service)
    }
  }

  // The entry that Add_ works on.
  ghost function AddId(s: AddrState, addr: Address): nat {
    if addr.service.ip in s.mapAddr then s.mapAddr[addr.service.ip] else s.nIdCount
  }

  // The slot that Add_ aims at.  A known address keeps the port it came with.
  ghost function AddSlot(hs: Hashes, s: AddrState, addr: Address, source: NetAddr): Slot {
    var x := AddId(s, addr);
    var service := if addr.service.ip in s.mapAddr && x in s.mapInfo then s.mapInfo[x].addr.service else addr.service;
    NewSlot(hs, s.nKey, NewBucket(hs, s.nKey, service, source), service)
  }

  // The state in which Add_ looks for a place.
  ghost function AddStart(s: AddrState, addr: Address, source: NetAddr, nTimePenalty: nat, nNow: int): AddrState {
    var x := AddId(s, addr);
    if addr.service.ip in s.mapAddr && x in s.mapInfo
    then s.(mapInfo := s.mapInfo[x := Refreshed(s.mapInfo[x], addr, nTimePenalty, nNow)])
    else Announced(s, addr, source, nTimePenalty)
  }

  lemma KnownAddress(hs: Hashes, s: AddrState, ip: NetAddr)
    requires Consistent(hs, s)
    ensures ip in s.mapAddr ==> s.mapAddr[ip] in s.mapInfo && s.mapInfo[s.mapAddr[ip]].Ip() == ip
  {
  }

  lemma EntryAddressed(hs: Hashes, s: AddrState, x: nat)
    requires Consistent(hs, s)
    ensures x in s.mapInfo ==> s.mapInfo[x].Ip() in s.mapAddr
  {
  }

  // An entry of the new table is counted, and may stand in for one in limbo.
  lemma InTable(hs: Hashes, s: AddrState, x: nat)
    requires Consistent(hs, s) && x in s.mapInfo && !s.mapInfo[x].fInTried
    ensures Good(hs, s, {x}, 0) && 0 < s.mapInfo[x].nRefCount <= NEW_BUCKETS_PER_ADDRESS
  {
    hide AddrIndex, RandomIndex, IdsUsed, TriedTable, NewTable, Counts;
    assert RefCount(hs, s, {}, x);
    forall id | id in s.mapInfo
      ensures RefCount(hs, s, {x}, id)
    {
      assert RefCount(hs, s, {}, id);
    }
  }

  lemma RefreshedKeeps(info: Info, addr: Address, nTimePenalty: nat, nNow: int)
    ensures var r := Refreshed(info, addr, nTimePenalty, nNow);
            && r.addr.service == info.addr.service && r.fInTried == info.fInTried && r.nRefCount == info.nRefCount
  {
  }

  ghost predicate ChangesEntry(s: AddrState, x: nat, u: AddrState) {
    && u.nKey == s.nKey && u.vvTried == s.vvTried && u.nTried == s.nTried && u.vvNew == s.vvNew
    && x in u.mapInfo && u.mapInfo == s.mapInfo[x := u.mapInfo[x]]
  }

  lemma NothingAdded(s: AddrState, x: nat, slot: Slot)
    ensures AddedOnly(s, x, slot, s)
  {
  }

  lemma OccupantsKnown(hs: Hashes, s: AddrState, slot: Slot)
    requires Consistent(hs, s)
    ensures OccupantKnown(s, slot)
  {
  }

  lemma ChangedOnly(s: AddrState, x: nat, slot: Slot, u: AddrState)
    requires ChangesEntry(s, x, u)
    ensures AddedOnly(s, x, slot, u)
  {
  }

  lemma ChangedThenAdded(s: AddrState, u: AddrState, x: nat, slot: Slot, t: AddrState)
    requires ChangesEntry(s, x, u) && AddedOnly(u, x, slot, t)
    ensures AddedOnly(s, x, slot, t)
  {
    forall id | id in s.mapInfo && id != x && !Holds(s.vvNew, slot, id)
      ensures SameEntry(s, t, id)
    {
      assert SameEntry(u, t, id);
    }
  }

  lemma EveryBucketSeen(b: nat, nRnd: nat) returns (m: nat)
    requires b < NEW_BUCKET_COUNT
    ensures m < NEW_BUCKET_COUNT && Rotated(m, nRnd) == b
  {
    m := (b + NEW_BUCKET_COUNT - nRnd % NEW_BUCKET_COUNT) % NEW_BUCKET_COUNT;
  }

  lemma InSomeBucket(hs: Hashes, s: AddrState, x: nat)
    requires Consistent(hs, s) && x in s.mapInfo && !s.mapInfo[x].fInTried
    ensures BucketsOf(hs, s, x) != {}
  {
    assert RefCount(hs, s, {}, x);
  }

  lemma AlreadyInSlot(hs: Hashes, s: AddrState, x: nat)
    requires Consistent(hs, s) && x in s.mapInfo && s.mapInfo[x].fInTried
    ensures s.vvTried == s.vvTried[TriedSlot(hs, s.nKey, s.mapInfo[x].addr.service) := x]
  {
  }

  lemma WithdrawnIs(s: AddrState, x: nat, t: AddrState)
    requires x in s.mapInfo && t == s.(vvNew := t.vvNew, mapInfo := s.mapInfo[x := s.mapInfo[x].(nRefCount := 0)])
    requires t.vvNew == Withdrawn(s, x).vvNew
    ensures t == Withdrawn(s, x)
  {
  }

  // ------------------------------------------------------------------- runs

  datatype Op =
    | DoAdd(addr: Address, source: NetAddr, nPenalty: nat, fRoutable: bool, nNow: int, nRnd: nat)
    | DoGood(service: Service, nTime: int, nRnd: nat)
    | DoAttempt(service: Service, fCountFailure: bool, nTime: int)
    | DoConnected(service: Service, nTimeSeen: nat)
    | DoSetServices(service: Service, nServices: bv64)
    | DoGetAddr(nNow: int, rnd: nat -> nat)
    | DoClear(nKey: nat)

  // What operations do to the record of an entry.

  // Every entry of t was one of s, and only its places have changed.
  ghost predicate SameHistory(s: AddrState, t: AddrState) {
    forall id | id in t.mapInfo :: id in s.mapInfo && SamePast(s.mapInfo[id], t.mapInfo[id])
  }

  predicate SamePast(a: Info, b: Info) {
    && b.addr == a.addr && b.source == a.source && b.nLastTry == a.nLastTry && b.nLastSuccess == a.nLastSuccess
    && b.nLastCountAttempt == a.nLastCountAttempt && b.nAttempts == a.nAttempts
  }

  lemma HistoryThrough(s: AddrState, u: AddrState, t: AddrState)
    requires SameHistory(s, u) && SameHistory(u, t)
    ensures SameHistory(s, t)
  {
  }

  lemma HistoryShuffled(s: AddrState, t: AddrState)
    requires t.mapInfo.Keys <= s.mapInfo.Keys && forall id | id in t.mapInfo :: SameEntry(s, t, id)
    ensures SameHistory(s, t)
  {
    forall id | id in t.mapInfo
      ensures id in s.mapInfo && SamePast(s.mapInfo[id], t.mapInfo[id])
    {
      assert SameEntry(s, t, id);
    }
  }

  lemma HistoryDeleted(s: AddrState, x: nat)
    requires RandomIndex(s) && x in s.mapInfo
    ensures SameHistory(s, Deleted(s, x)) && Deleted(s, x).nLastGood == s.nLastGood
  {
    hide RandomIndex, Deleted, SameHistory;
    DeletedOnly(s, x);
    HistoryShuffled(s, Deleted(s, x));
  }

  lemma HistoryCleared(s: AddrState, slot: Slot)
    requires RandomIndex(s)
    requires slot in s.vvNew ==> s.vvNew[slot] in s.mapInfo && s.mapInfo[s.vvNew[slot]].nRefCount > 0
    ensures SameHistory(s, Cleared(s, slot)) && Cleared(s, slot).nLastGood == s.nLastGood
  {
    hide RandomIndex, Deleted;
    if slot in s.vvNew {
      var x, t := s.vvNew[slot], Unlinked(s, slot);
      ShapeKept(s, t);
      if t.mapInfo[x].nRefCount == 0 {
        HistoryDeleted(t, x);
        HistoryThrough(s, t, Deleted(t, x));
      }
    }
  }

  lemma HistoryEvicted(s: AddrState, slot: Slot)
    requires slot in s.vvTried && s.vvTried[slot] in s.mapInfo
    ensures SameHistory(s, Evicted(s, slot)) && SameShape(s, Evicted(s, slot)) && Evicted(s, slot).nLastGood == s.nLastGood
    ensures s.vvTried[slot] in Evicted(s, slot).mapInfo && Evicted(s, slot).vvNew == s.vvNew
  {
  }

  lemma HistoryLinked(s: AddrState, x: nat, slot: Slot)
    requires x in s.mapInfo
    ensures var t := Linked(s, x, slot).(nNew := s.nNew + 1); SameHistory(s, t) && t.nLastGood == s.nLastGood
  {
  }

  lemma HistoryReadmitted(hs: Hashes, s: AddrState, slot: Slot)
    requires slot in s.vvTried && s.vvTried[slot] in s.mapInfo && s.mapInfo[s.vvTried[slot]].nRefCount == 0
    requires RandomIndex(s) && OccupantSound(s, HomeSlot(hs, s.nKey, s.mapInfo[s.vvTried[slot]]))
    ensures SameHistory(s, Readmitted(hs, s, slot)) && Readmitted(hs, s, slot).nLastGood == s.nLastGood
  {
    hide RandomIndex, AddrIndex, IdsUsed, Cleared, ClearedOnly, HomeSlot, SameHistory, Linked, Evicted;
    var x, u := s.vvTried[slot], Evicted(s, slot);
    var home := HomeSlot(hs, s.nKey, s.mapInfo[x]);
    HistoryEvicted(s, slot);
    ShapeKept(s, u);
    EvictedOccupant(s, slot, home);
    OccupantSoundMeans(u, home);
    ClearedTouchesOnly(u, home);
    ClearedKeeps(u, home, Cleared(u, home), x);
    HistoryCleared(u, home);
    HistoryThrough(s, u, Cleared(u, home));
    HistoryLinked(Cleared(u, home), x, home);
    HistoryThrough(s, Cleared(u, home), Readmitted(hs, s, slot));
  }

  lemma HistoryMoved(hs: Hashes, s: AddrState, x: nat, t: AddrState)
    requires x in s.mapInfo && MovedToTried(hs, s, x, t)
    ensures SameHistory(s, t) && t.nLastGood == s.nLastGood
  {
    hide Good, Readmitted;
    var w := Withdrawn(s, x).(nNew := s.nNew - 1);
    var slot := TriedSlot(hs, w.nKey, w.mapInfo[x].addr.service);
    if slot in w.vvTried {
      GoodReadmitted(hs, w, slot, {x}, 1);
      GoodRandom(hs, w, {x}, 1);
      ReadmittedTouchesOnly(hs, w, slot);
      ReadmittedKeeps(hs, w, slot, x);
      HistoryReadmitted(hs, w, slot);
      HistoryThrough(s, w, Readmitted(hs, w, slot));
      HistoryThrough(s, Readmitted(hs, w, slot), t);
    }
  }

  lemma HistoryPlaced(s: AddrState, x: nat, slot: Slot, nNow: int, t: AddrState)
    requires PlacedTo(s, x, slot, nNow, t)
    ensures SameHistory(s, t) && t.nLastGood == s.nLastGood
  {
    hide RandomIndex, MayPlace, Cleared, Deleted;
    OccupantSoundMeans(s, slot);
    HistoryCleared(s, slot);
    if Holds(s.vvNew, slot, x) {
    } else if MayPlace(s, x, slot, nNow) {
      HistoryThrough(s, Cleared(s, slot), t);
    } else if s.mapInfo[x].nRefCount == 0 {
      HistoryDeleted(s, x);
    }
  }

  // The address has been announced by someone.
  predicate Told(op: Op, ip: NetAddr) {
    op.DoAdd? && op.fRoutable && op.addr.service.ip == ip
  }

  // The time that an announcement vouches for; only a peer's own is taken in full.
  function ToldTime(op: Op): nat
    requires op.DoAdd?
  {
    var nPenalty := if op.addr.service.ip == op.source then 0 else op.nPenalty;
    if op.addr.nTime <= nPenalty then 0 else op.addr.nTime - nPenalty
  }

  // Attempts are counted, at most once between two successes of whichever peer,
  // and a success clears them.
  predicate TriesRecorded(a: Info, op: Op, nLastGood: int, b: Info) {
    if op.DoGood? && op.service == a.addr.service then
      b.nAttempts == 0 && b.nLastSuccess == op.nTime && b.nLastTry == op.nTime && b.nLastCountAttempt == a.nLastCountAttempt
    else if op.DoAttempt? && op.service == a.addr.service then
      && b.nLastTry == op.nTime && b.nLastSuccess == a.nLastSuccess
      && if op.fCountFailure && a.nLastCountAttempt < nLastGood
         then b.nAttempts == a.nAttempts + 1 && b.nLastCountAttempt == op.nTime
         else b.nAttempts == a.nAttempts && b.nLastCountAttempt == a.nLastCountAttempt
    else
      && b.nAttempts == a.nAttempts && b.nLastSuccess == a.nLastSuccess && b.nLastTry == a.nLastTry
      && b.nLastCountAttempt == a.nLastCountAttempt
  }

  // The time last seen moves when connected, by more than 20 minutes, and when
  // told of a time that is later by more than a day, or an hour if it is recent.
  predicate TimeRecorded(a: Info, op: Op, b: Info) {
    if op.DoConnected? && op.service == a.addr.service then
      b.addr.nTime == if op.nTimeSeen > a.addr.nTime + 1_200 then op.nTimeSeen else a.addr.nTime
    else if Told(op, a.addr.service.ip) then
      var nWait := if op.nNow < op.addr.nTime + 86_400 then 3_600 else 86_400;
      var nPenalty := if op.addr.service.ip == op.source then 0 else op.nPenalty;
      b.addr.nTime == if op.addr.nTime > 0 && (a.addr.nTime == 0 || op.addr.nTime > a.addr.nTime + nWait + nPenalty)
                      then ToldTime(op) else a.addr.nTime
    else b.addr.nTime == a.addr.nTime
  }

  predicate Recorded(a: Info, op: Op, nLastGood: int, b: Info) {
    && b.addr.service == a.addr.service && b.source == a.source
    && TriesRecorded(a, op, nLastGood, b) && TimeRecorded(a, op, b)
    && b.addr.nServices == if op.DoSetServices? && op.service == a.addr.service then op.nServices
                           else if Told(op, a.addr.service.ip) then a.addr.nServices | op.addr.nServices
                           else a.addr.nServices
  }

  // An entry that an announcement has created.
  predicate FirstRecorded(op: Op, b: Info) {
    && op.DoAdd? && op.fRoutable && b.addr == op.addr.(nTime := ToldTime(op)) && b.source == op.source
    && b.nLastTry == 0 && b.nLastSuccess == 0 && b.nLastCountAttempt == 0 && b.nAttempts == 0
  }

  ghost predicate AllRecorded(s: AddrState, op: Op, t: AddrState) {
    && t.nLastGood == (if op.DoGood? then op.nTime else s.nLastGood)
    && (forall id | id in t.mapInfo && id in s.mapInfo :: Recorded(s.mapInfo[id], op, s.nLastGood, t.mapInfo[id]))
    && (forall id | id in t.mapInfo && id !in s.mapInfo :: id == s.nIdCount && FirstRecorded(op, t.mapInfo[id]))
  }

  // In a consistent state there is no other entry of a service than the one found.
  lemma FoundIsOnly(hs: Hashes, s: AddrState, service: Service)
    requires Consistent(hs, s)
    ensures forall id | id in s.mapInfo :: s.mapInfo[id].addr.service == service <==> id == Found(s, service)
  {
    hide RandomIndex, IdsUsed, TriedTable, NewTable, RefCounts, Counts;
    forall id | id in s.mapInfo && s.mapInfo[id].addr.service == service
      ensures service.ip in s.mapAddr && s.mapAddr[service.ip] == id
    {
      assert s.mapInfo[id].Ip() == service.ip;
    }
  }

  lemma RecordedPast(a: Info, op: Op, nLastGood: int, b: Info, c: Info)
    requires Recorded(a, op, nLastGood, b) && SamePast(b, c)
    ensures Recorded(a, op, nLastGood, c)
  {
  }

  lemma RecordedNothing(a: Info, op: Op, nLastGood: int)
    requires !Told(op, a.addr.service.ip)
    requires op.DoGood? || op.DoAttempt? || op.DoConnected? || op.DoSetServices? ==> op.service != a.addr.service
    ensures Recorded(a, op, nLastGood, a)
  {
  }

  // One entry is recorded, and the others are left alone.
  lemma RecordsOne(hs: Hashes, s: AddrState, op: Op, u: AddrState, t: AddrState)
    requires Consistent(hs, s) && (op.DoGood? || op.DoAttempt? || op.DoConnected? || op.DoSetServices?)
    requires var r := Found(s, op.service);
             if r == -1 then u.mapInfo == s.mapInfo
             else u.mapInfo.Keys == s.mapInfo.Keys && u.mapInfo == s.mapInfo[r := u.mapInfo[r]]
                  && Recorded(s.mapInfo[r], op, s.nLastGood, u.mapInfo[r])
    requires SameHistory(u, t) && t.nLastGood == if op.DoGood? then op.nTime else s.nLastGood
    ensures AllRecorded(s, op, t)
  {
    hide Good, Recorded, SamePast, Found;
    FoundIsOnly(hs, s, op.service);
    forall id | id in t.mapInfo
      ensures id in s.mapInfo && Recorded(s.mapInfo[id], op, s.nLastGood, t.mapInfo[id])
    {
      assert id in u.mapInfo && SamePast(u.mapInfo[id], t.mapInfo[id]);
      if id != Found(s, op.service) {
        RecordedNothing(s.mapInfo[id], op, s.nLastGood);
      }
      RecordedPast(s.mapInfo[id], op, s.nLastGood, u.mapInfo[id], t.mapInfo[id]);
    }
  }

  lemma AttemptRecorded(a: Info, op: Op, nLastGood: int)
    requires op.DoAttempt? && op.service == a.addr.service
    ensures Recorded(a, op, nLastGood, Attempted(a, op.fCountFailure, op.nTime, nLastGood))
  {
  }

  lemma SeenRecorded(a: Info, op: Op, nLastGood: int)
    requires op.DoConnected? && op.service == a.addr.service
    ensures Recorded(a, op, nLastGood, SeenAt(a, op.nTimeSeen))
  {
  }

  lemma RefreshRecorded(a: Info, op: Op, nLastGood: int)
    requires Told(op, a.addr.service.ip)
    ensures Recorded(a, op, nLastGood, Refreshed(a, op.addr, if op.addr.service.ip == op.source then 0 else op.nPenalty, op.nNow))
  {
  }

  lemma SameHistoryItself(s: AddrState)
    ensures SameHistory(s, s)
  {
  }

  lemma ToldIs(hs: Hashes, s: AddrState, op: Op, id: nat)
    requires Consistent(hs, s) && op.DoAdd? && op.fRoutable && id in s.mapInfo
    ensures Told(op, s.mapInfo[id].addr.service.ip) <==> op.addr.service.ip in s.mapAddr && id == s.mapAddr[op.addr.service.ip]
  {
    hide RandomIndex, IdsUsed, TriedTable, NewTable, RefCounts, Counts;
    assert s.mapInfo[id].Ip() in s.mapAddr;
  }

  lemma StartKnown(hs: Hashes, s: AddrState, op: Op, id: nat)
    requires Consistent(hs, s) && op.DoAdd? && op.fRoutable && id in s.mapInfo
    ensures var u := AddStart(s, op.addr, op.source, if op.addr.service.ip == op.source then 0 else op.nPenalty, op.nNow);
            id in u.mapInfo && Recorded(s.mapInfo[id], op, s.nLastGood, u.mapInfo[id])
  {
    hide AddrIndex, RandomIndex, TriedTable, NewTable, RefCounts, Counts, Recorded, Refreshed, Told;
    KnownAddress(hs, s, op.addr.service.ip);
    ToldIs(hs, s, op, id);
    if Told(op, s.mapInfo[id].addr.service.ip) {
      RefreshRecorded(s.mapInfo[id], op, s.nLastGood);
    } else {
      RecordedNothing(s.mapInfo[id], op, s.nLastGood);
    }
  }

  lemma StartFirst(hs: Hashes, s: AddrState, op: Op)
    requires Consistent(hs, s) && op.DoAdd? && op.fRoutable
    ensures var u := AddStart(s, op.addr, op.source, if op.addr.service.ip == op.source then 0 else op.nPenalty, op.nNow);
            && u.nLastGood == s.nLastGood
            && forall id | id in u.mapInfo && id !in s.mapInfo :: id == s.nIdCount && FirstRecorded(op, u.mapInfo[id])
  {
    hide Good, Refreshed, Penalized, ToldTime;
    ToldTimeIs(op);
    KnownAddress(hs, s, op.addr.service.ip);
  }

  lemma RecordsAdd(hs: Hashes, s: AddrState, op: Op, t: AddrState)
    requires Consistent(hs, s) && op.DoAdd? && op.fRoutable
    requires var u := AddStart(s, op.addr, op.source, if op.addr.service.ip == op.source then 0 else op.nPenalty, op.nNow);
             SameHistory(u, t) && t.nLastGood == u.nLastGood
    ensures AllRecorded(s, op, t)
  {
    var u := AddStart(s, op.addr, op.source, if op.addr.service.ip == op.source then 0 else op.nPenalty, op.nNow);
    hide Good, Recorded, AddStart, ToldTime;
    StartFirst(hs, s, op);
    forall id | id in t.mapInfo
      ensures if id in s.mapInfo then Recorded(s.mapInfo[id], op, s.nLastGood, t.mapInfo[id])
              else id == s.nIdCount && FirstRecorded(op, t.mapInfo[id])
    {
      assert id in u.mapInfo && SamePast(u.mapInfo[id], t.mapInfo[id]);
      if id in s.mapInfo {
        StartKnown(hs, s, op, id);
        RecordedPast(s.mapInfo[id], op, s.nLastGood, u.mapInfo[id], t.mapInfo[id]);
      }
    }
  }

  lemma ToldTimeIs(op: Op)
    requires op.DoAdd?
    ensures ToldTime(op) == Penalized(op.addr.nTime, if op.addr.service.ip == op.source then 0 else op.nPenalty)
  {
  }

  lemma RecordsNothing(s: AddrState, op: Op, t: AddrState)
    requires op.DoGetAddr? || (op.DoAdd? && !op.fRoutable)
    requires SameHistory(s, t) && t.nLastGood == s.nLastGood
    ensures AllRecorded(s, op, t)
  {
  }

  lemma RecordsAttempt(hs: Hashes, s: AddrState, op: Op, t: AddrState)
    requires Consistent(hs, s) && op.DoAttempt? && t == s.(mapInfo := t.mapInfo)
    requires var r := Found(s, op.service);
             t.mapInfo == if r == -1 then s.mapInfo
                          else s.mapInfo[r := Attempted(s.mapInfo[r], op.fCountFailure, op.nTime, s.nLastGood)]
    ensures AllRecorded(s, op, t)
  {
    hide Good, Recorded, Attempted, AllRecorded, SameHistory, Found;
    var r := Found(s, op.service);
    if r != -1 {
      AttemptRecorded(s.mapInfo[r], op, s.nLastGood);
    }
    SameHistoryItself(t);
    RecordsOne(hs, s, op, t, t);
  }

  lemma RecordsSeen(hs: Hashes, s: AddrState, op: Op, t: AddrState)
    requires Consistent(hs, s) && op.DoConnected? && t == s.(mapInfo := t.mapInfo)
    requires var r := Found(s, op.service);
             t.mapInfo == if r == -1 then s.mapInfo else s.mapInfo[r := SeenAt(s.mapInfo[r], op.nTimeSeen)]
    ensures AllRecorded(s, op, t)
  {
    hide Good, Recorded, SeenAt, AllRecorded, SameHistory, Found;
    var r := Found(s, op.service);
    if r != -1 {
      SeenRecorded(s.mapInfo[r], op, s.nLastGood);
    }
    SameHistoryItself(t);
    RecordsOne(hs, s, op, t, t);
  }

  lemma RecordsServices(hs: Hashes, s: AddrState, op: Op, t: AddrState)
    requires Consistent(hs, s) && op.DoSetServices? && t == s.(mapInfo := t.mapInfo)
    requires var r := Found(s, op.service);
             t.mapInfo == if r == -1 then s.mapInfo
                          else s.mapInfo[r := s.mapInfo[r].(addr := s.mapInfo[r].addr.(nServices := op.nServices))]
    ensures AllRecorded(s, op, t)
  {
    hide Good, AllRecorded, SameHistory, Found;
    SameHistoryItself(t);
    RecordsOne(hs, s, op, t, t);
  }

  lemma GoodHistory(hs: Hashes, s: AddrState, op: Op, t: AddrState)
    requires Consistent(hs, s) && op.DoGood?
    requires var r := Found(s, op.service);
             if r == -1 then t == s.(nLastGood := op.nTime)
             else var u := Praised(s, r, op.nTime); if s.mapInfo[r].fInTried then t == u else MovedToTried(hs, u, r, t)
    ensures AllRecorded(s, op, t)
  {
    hide Good, MovedToTried, AllRecorded, SameHistory, Found;
    var r := Found(s, op.service);
    var u := if r == -1 then s.(nLastGood := op.nTime) else Praised(s, r, op.nTime);
    SameHistoryItself(u);
    if r != -1 && !s.mapInfo[r].fInTried {
      HistoryMoved(hs, u, r, t);
    }
    RecordsOne(hs, s, op, u, t);
  }

  lemma AddsHistory(hs: Hashes, s: AddrState, op: Op, t: AddrState)
    requires Consistent(hs, s) && op.DoAdd? && (!op.fRoutable ==> t == s)
    requires op.fRoutable ==>
               var u := AddStart(s, op.addr, op.source, if op.addr.service.ip == op.source then 0 else op.nPenalty, op.nNow);
               var x := AddId(s, op.addr);
               t == u || PlacedTo(u, x, AddSlot(hs, s, op.addr, op.source), op.nNow, t)
    ensures AllRecorded(s, op, t)
  {
    hide Good, PlacedTo, AllRecorded, AddStart;
    if op.fRoutable {
      var u := AddStart(s, op.addr, op.source, if op.addr.service.ip == op.source then 0 else op.nPenalty, op.nNow);
      var x := AddId(s, op.addr);
      if t != u {
        HistoryPlaced(u, x, AddSlot(hs, s, op.addr, op.source), op.nNow, t);
      }
      RecordsAdd(hs, s, op, t);
    } else {
      RecordsNothing(s, op, t);
    }
  }

  // --------------------------------------------------- how far a group reaches

  ghost predicate SameOutside(a: map<Slot, nat>, b: map<Slot, nat>, buckets: set<nat>) {
    forall slot: Slot | slot.bucket !in buckets :: (slot in a <==> slot in b) && (slot in a ==> a[slot] == b[slot])
  }

  // The slot is one for announcements from the group of some entry's source.
  ghost predicate FromSomeEntry(hs: Hashes, s: AddrState, slot: Slot) {
    exists id | id in s.mapInfo :: slot.bucket in SourceBuckets(hs, s.nKey, hs.group(s.mapInfo[id].source))
  }

  // An announcement changes the new table only in the buckets of its source's
  // group, a success fills only such slots of known entries, and nothing else
  // changes it.
  ghost predicate NewReach(hs: Hashes, s: AddrState, op: Op, t: AddrState) {
    match op
    case DoAdd(_, source, _, _, _, _) => SameOutside(s.vvNew, t.vvNew, SourceBuckets(hs, s.nKey, hs.group(source)))
    case DoGood(_, _, _) => forall slot | slot in t.vvNew && slot !in s.vvNew :: FromSomeEntry(hs, s, slot)
    case DoClear(_) => t.vvNew == map[]
    case _ => t.vvNew == s.vvNew
  }

  lemma AddReach(hs: Hashes, s: AddrState, op: Op, t: AddrState)
    requires op.DoAdd? && AddedOnly(s, AddId(s, op.addr), AddSlot(hs, s, op.addr, op.source), t)
    ensures NewReach(hs, s, op, t)
  {
    hide SourceBuckets, NewBucket;
    var slot := AddSlot(hs, s, op.addr, op.source);
    var x := AddId(s, op.addr);
    BucketsOfGroups(hs, s.nKey, if op.addr.service.ip in s.mapAddr && x in s.mapInfo then s.mapInfo[x].addr.service else op.addr.service, op.source);
    forall other: Slot | other != slot
      ensures (other in s.vvNew <==> other in t.vvNew) && (other in s.vvNew ==> s.vvNew[other] == t.vvNew[other])
    {
      assert other in s.vvNew - {slot} <==> other in t.vvNew - {slot};
    }
  }

  lemma MovedReach(hs: Hashes, s: AddrState, x: nat, t: AddrState)
    requires x in s.mapInfo && MovedToTried(hs, s, x, t)
    ensures forall slot | slot in t.vvNew && slot !in s.vvNew :: FromSomeEntry(hs, s, slot)
  {
    hide Good, Readmitted, SourceBuckets, NewBucket;
    var w := Withdrawn(s, x).(nNew := s.nNew - 1);
    var slot := TriedSlot(hs, w.nKey, w.mapInfo[x].addr.service);
    if slot in w.vvTried {
      GoodReadmitted(hs, w, slot, {x}, 1);
      GoodRandom(hs, w, {x}, 1);
      ReadmittedTouchesOnly(hs, w, slot);
      ReadmittedKeeps(hs, w, slot, x);
      var y := w.vvTried[slot];
      BucketsOfGroups(hs, s.nKey, s.mapInfo[y].addr.service, s.mapInfo[y].source);
      assert FromSomeEntry(hs, s, HomeSlot(hs, s.nKey, s.mapInfo[y]));
    }
  }

  lemma GoodReach(hs: Hashes, s: AddrState, op: Op, t: AddrState)
    requires op.DoGood?
    requires var r := Found(s, op.service);
             if r == -1 then t == s.(nLastGood := op.nTime)
             else r in s.mapInfo
                  && var u := Praised(s, r, op.nTime); if s.mapInfo[r].fInTried then t == u else MovedToTried(hs, u, r, t)
    ensures NewReach(hs, s, op, t)
  {
    hide MovedToTried, SourceBuckets, Found;
    var r := Found(s, op.service);
    if r != -1 && !s.mapInfo[r].fInTried {
      var u := Praised(s, r, op.nTime);
      MovedReach(hs, u, r, t);
      forall slot | slot in t.vvNew && slot !in s.vvNew
        ensures FromSomeEntry(hs, s, slot)
      {
        assert FromSomeEntry(hs, u, slot);
        var id :| id in u.mapInfo && slot.bucket in SourceBuckets(hs, u.nKey, hs.group(u.mapInfo[id].source));
        assert id in s.mapInfo && s.mapInfo[id].source == u.mapInfo[id].source;
      }
    }
  }

  // Only the given groups have announced what the manager knows.
  ghost predicate Localized(hs: Hashes, s: AddrState, groups: set<nat>) {
    && (forall id | id in s.mapInfo :: hs.group(s.mapInfo[id].source) in groups)
    && (forall slot | slot in s.vvNew :: exists g | g in groups :: slot.bucket in SourceBuckets(hs, s.nKey, g))
  }

  ghost function SourceGroups(hs: Hashes, ops: seq<Op>): set<nat> {
    set i | 0 <= i < |ops| && ops[i].DoAdd? :: hs.group(ops[i].source)
  }

  lemma LocalizedNext(hs: Hashes, s: AddrState, op: Op, t: AddrState, groups: set<nat>, groups': set<nat>)
    requires Localized(hs, s, groups) && groups <= groups' && (op.DoAdd? ==> hs.group(op.source) in groups')
    requires !op.DoClear? && t.nKey == s.nKey && AllRecorded(s, op, t) && NewReach(hs, s, op, t)
    ensures Localized(hs, t, groups')
  {
    hide SourceBuckets, TriesRecorded, TimeRecorded, ToldTime;
    forall slot | slot in t.vvNew
      ensures exists g | g in groups' :: slot.bucket in SourceBuckets(hs, t.nKey, g)
    {
      if slot in s.vvNew {
        var g :| g in groups && slot.bucket in SourceBuckets(hs, s.nKey, g);
        assert g in groups';
      } else if op.DoGood? {
        assert FromSomeEntry(hs, s, slot);
        var id :| id in s.mapInfo && slot.bucket in SourceBuckets(hs, s.nKey, hs.group(s.mapInfo[id].source));
        assert hs.group(s.mapInfo[id].source) in groups';
      }
    }
  }

  lemma SourceGroupsNext(hs: Hashes, ops: seq<Op>, i: nat)
    requires i < |ops|
    ensures SourceGroups(hs, ops[..i]) <= SourceGroups(hs, ops[..i + 1])
    ensures ops[i].DoAdd? ==> hs.group(ops[i].source) in SourceGroups(hs, ops[..i + 1])
  {
    var a, b := ops[..i], ops[..i + 1];
    forall g | g in SourceGroups(hs, a)
      ensures g in SourceGroups(hs, b)
    {
      var k :| 0 <= k < i && a[k].DoAdd? && g == hs.group(a[k].source);
      assert b[k] == a[k];
    }
    if ops[i].DoAdd? {
      assert b[i] == ops[i];
    }
  }

  method Step(m: Manager, op: Op)
    requires Consistent(m.hs, m.State())
    modifies m
    ensures Consistent(m.hs, m.State())
    ensures !op.DoClear? ==> old(m.vvTried).Keys <= m.vvTried.Keys && m.nKey == old(m.nKey)
    ensures !op.DoClear? ==> AllRecorded(old(m.State()), op, m.State())
    ensures NewReach(m.hs, old(m.State()), op, m.State())
    ensures op.DoClear? ==> m.State() == Empty(op.nKey)
  {
    hide Good, SlotOpen, AllRecorded, Presented, Praised, Attempted, SeenAt, AddStart, PlacedTo, MovedToTried, SameHistory, Found,
      SameOutside, FromSomeEntry, SourceBuckets;
    ghost var s := m.State();
    match op {
      case DoAdd(addr, source, nPenalty, fRoutable, nNow, nRnd) =>
        var fNew := m.Add_(addr, source, nPenalty, fRoutable, nNow, nRnd);
        AddsHistory(m.hs, s, op, m.State());
        AddReach(m.hs, s, op, m.State());
      case DoGood(service, nTime, nRnd) =>
        m.Good_(service, nTime, nRnd);
        GoodHistory(m.hs, s, op, m.State());
        GoodReach(m.hs, s, op, m.State());
      case DoAttempt(service, fCountFailure, nTime) =>
        m.Attempt_(service, fCountFailure, nTime);
        RecordsAttempt(m.hs, s, op, m.State());
      case DoConnected(service, nTimeSeen) =>
        m.Connected_(service, nTimeSeen);
        RecordsSeen(m.hs, s, op, m.State());
      case DoSetServices(service, nServices) =>
        m.SetServices_(service, nServices);
        RecordsServices(m.hs, s, op, m.State());
      case DoGetAddr(nNow, rnd) =>
        var _ := m.GetAddr_(nNow, rnd);
        HistoryShuffled(s, m.State());
        RecordsNothing(s, op, m.State());
      case DoClear(nKey) =>
        m.Clear(nKey);
        GoodEmpty(m.hs, nKey);
    }
  }

  ghost predicate NoClear(ops: seq<Op>, i: nat, j: nat) {
    j <= |ops| && forall k | i <= k < j :: !ops[k].DoClear?
  }

  // Between two states of a run without a Clear, the tried slots that are taken
  // stay taken and the key stays the same.
  ghost predicate TriedKept(ops: seq<Op>, trace: seq<AddrState>) {
    forall i: nat, j: nat | i <= j < |trace| && NoClear(ops, i, j) ::
      trace[i].vvTried.Keys <= trace[j].vvTried.Keys && trace[i].nKey == trace[j].nKey
  }

  lemma TriedKeptNext(ops: seq<Op>, trace: seq<AddrState>, s: AddrState)
    requires 0 < |trace| <= |ops| && TriedKept(ops, trace)
    requires var n := |trace| - 1; !ops[n].DoClear? ==> trace[n].vvTried.Keys <= s.vvTried.Keys && trace[n].nKey == s.nKey
    ensures TriedKept(ops, trace + [s])
  {
    var n, longer := |trace| - 1, trace + [s];
    forall i: nat, j: nat | i <= j < |longer| && NoClear(ops, i, j)
      ensures longer[i].vvTried.Keys <= longer[j].vvTried.Keys && longer[i].nKey == longer[j].nKey
    {
      if j < |trace| {
        assert trace[i].vvTried.Keys <= trace[j].vvTried.Keys;
      } else if i <= n {
        assert NoClear(ops, i, n);
      }
    }
  }

  // Every run of the operations from a cleared manager keeps all its indexes
  // consistent in every state, and until the next Clear a tried slot once taken
  // stays taken and every entry has the record of what was done to it.  All new
  // buckets in use are among those of the groups that have announced something.
  method Run(hs: Hashes, nKey: nat, ops: seq<Op>) returns (m: Manager, ghost trace: seq<AddrState>)
    ensures fresh(m) && m.hs == hs && Consistent(hs, m.State())
    ensures |trace| == |ops| + 1 && trace[0] == Empty(nKey) && trace[|ops|] == m.State()
    ensures (forall i | 0 <= i < |trace| :: Consistent(hs, trace[i])) && TriedKept(ops, trace)
    ensures forall i | 0 <= i < |ops| && !ops[i].DoClear? :: AllRecorded(trace[i], ops[i], trace[i + 1])
    ensures forall i | 0 <= i < |ops| :: NewReach(hs, trace[i], ops[i], trace[i + 1])
    ensures forall i | 0 <= i < |trace| :: Localized(hs, trace[i], SourceGroups(hs, ops[..i]))
  {
    hide Good, TriedKept, AllRecorded, NewReach, Localized, SourceGroups;
    m := new Manager(hs, nKey);
    trace := [m.State()];
    OneState(ops, m.State());
    EmptyLocalized(hs, nKey, SourceGroups(hs, ops[..0]));
    for i := 0 to |ops|
      invariant fresh(m) && m.hs == hs && Consistent(hs, m.State())
      invariant |trace| == i + 1 && trace[0] == Empty(nKey) && trace[i] == m.State()
      invariant (forall k | 0 <= k < |trace| :: Consistent(hs, trace[k])) && TriedKept(ops, trace)
      invariant forall k | 0 <= k < i && !ops[k].DoClear? :: AllRecorded(trace[k], ops[k], trace[k + 1])
      invariant forall k | 0 <= k < i :: NewReach(hs, trace[k], ops[k], trace[k + 1])
      invariant forall k | 0 <= k <= i :: Localized(hs, trace[k], SourceGroups(hs, ops[..k]))
    {
      Step(m, ops[i]);
      SourceGroupsNext(hs, ops, i);
      if ops[i].DoClear? {
        EmptyLocalized(hs, ops[i].nKey, SourceGroups(hs, ops[..i + 1]));
      } else {
        LocalizedNext(hs, trace[i], ops[i], m.State(), SourceGroups(hs, ops[..i]), SourceGroups(hs, ops[..i + 1]));
      }
      TriedKeptNext(ops, trace, m.State());
      trace := trace + [m.State()];
    }
  }

  lemma EmptyLocalized(hs: Hashes, nKey: nat, groups: set<nat>)
    ensures Localized(hs, Empty(nKey), groups)
  {
  }

  lemma OneState(ops: seq<Op>, s: AddrState)
    ensures TriedKept(ops, [s])
  {
  }

  // An attempt on entry x that counts as a failure until it succeeds.
  predicate CountedAttempt(s: AddrState, op: Op, x: nat) {
    && x in s.mapInfo && op.DoAttempt? && op.service == s.mapInfo[x].addr.service
    && op.fCountFailure && s.mapInfo[x].nLastCountAttempt < s.nLastGood
  }

  function Failures(ops: seq<Op>, trace: seq<AddrState>, x: nat, i: nat, j: nat): nat
    requires i <= j <= |ops| < |trace|
  {
    if i == j then 0 else Failures(ops, trace, x, i, j - 1) + if CountedAttempt(trace[j - 1], ops[j - 1], x) then 1 else 0
  }

  // Entry x stays from state i to state j of a run, without success.
  ghost predicate NoSuccess(ops: seq<Op>, trace: seq<AddrState>, x: nat, i: nat, j: nat) {
    && i <= j <= |ops| < |trace| && (forall k | i <= k <= j :: x in trace[k].mapInfo)
    && (forall k | i <= k < j :: !ops[k].DoClear? && AllRecorded(trace[k], ops[k], trace[k + 1]))
    && (forall k | i <= k < j && ops[k].DoGood? :: ops[k].service != trace[k].mapInfo[x].addr.service)
  }

  lemma {:induction false} FailuresAddUp(ops: seq<Op>, trace: seq<AddrState>, x: nat, i: nat, j: nat)
    requires NoSuccess(ops, trace, x, i, j)
    ensures trace[j].mapInfo[x].nAttempts == trace[i].mapInfo[x].nAttempts + Failures(ops, trace, x, i, j)
    ensures trace[j].mapInfo[x].nLastSuccess == trace[i].mapInfo[x].nLastSuccess
    ensures trace[j].mapInfo[x].addr.service == trace[i].mapInfo[x].addr.service
    decreases j
  {
    if i < j {
      FailuresAddUp(ops, trace, x, i, j - 1);
      assert AllRecorded(trace[j - 1], ops[j - 1], trace[j - 1 + 1]);
      hide TimeRecorded;
      assert Recorded(trace[j - 1].mapInfo[x], ops[j - 1], trace[j - 1].nLastGood, trace[j].mapInfo[x]);
    }
  }

  // A peer whose entry may not be given away is in no answer.
  lemma NotGiven(hs: Hashes, s: AddrState, x: nat, nNow: int, t: AddrState, v: seq<Address>)
    requires Consistent(hs, t) && OnlyShuffled(s, t) && x in s.mapInfo && !Presentable(s.mapInfo[x], nNow)
    requires forall k | 0 <= k < |v| :: Presented(t.mapInfo, nNow, v[k])
    ensures forall k | 0 <= k < |v| :: v[k].service.ip != s.mapInfo[x].Ip()
  {
    hide RandomIndex, IdsUsed, TriedTable, NewTable, RefCounts, Counts;
    assert SameEntry(s, t, x);
    forall k | 0 <= k < |v|
      ensures v[k].service.ip != s.mapInfo[x].Ip()
    {
      assert Presented(t.mapInfo, nNow, v[k]);
      var id :| PresentedBy(t.mapInfo, id, nNow, v[k]);
      assert t.mapInfo[id].Ip() in t.mapAddr && t.mapInfo[x].Ip() in t.mapAddr;
    }
  }

  // A peer that never succeeded and failed three times is in no answer that is
  // given an hour after it was last tried.
  lemma ThreeFailuresNotGiven(hs: Hashes, ops: seq<Op>, trace: seq<AddrState>, x: nat, i: nat, j: nat,
                              nNow: int, t: AddrState, v: seq<Address>)
    requires NoSuccess(ops, trace, x, i, j) && trace[i].mapInfo[x].nLastSuccess == 0 && Failures(ops, trace, x, i, j) >= 3
    requires trace[j].mapInfo[x].nLastTry + 3_600 <= nNow
    requires Consistent(hs, t) && OnlyShuffled(trace[j], t) && forall k | 0 <= k < |v| :: Presented(t.mapInfo, nNow, v[k])
    ensures forall k | 0 <= k < |v| :: v[k].service.ip != trace[j].mapInfo[x].Ip()
  {
    hide Good, OnlyShuffled, Presented;
    FailuresAddUp(ops, trace, x, i, j);
    NotGiven(hs, trace[j], x, nNow, t, v);
  }

  lemma CreatedByAdd(s: AddrState, op: Op, t: AddrState, x: nat)
    requires AllRecorded(s, op, t) && x in t.mapInfo && x !in s.mapInfo
    ensures op.DoAdd? && t.mapInfo[x].Ip() == op.addr.service.ip && t.mapInfo[x].nLastSuccess == 0
  {
    hide Recorded, ToldTime;
  }

  // Neither is a peer that was announced and has failed three times since.
  lemma NewcomerNotGiven(hs: Hashes, ops: seq<Op>, trace: seq<AddrState>, x: nat, i: nat, j: nat,
                         nNow: int, t: AddrState, v: seq<Address>)
    requires NoSuccess(ops, trace, x, i + 1, j) && Failures(ops, trace, x, i + 1, j) >= 3
    requires x !in trace[i].mapInfo && AllRecorded(trace[i], ops[i], trace[i + 1])
    requires trace[j].mapInfo[x].nLastTry + 3_600 <= nNow
    requires Consistent(hs, t) && OnlyShuffled(trace[j], t) && forall k | 0 <= k < |v| :: Presented(t.mapInfo, nNow, v[k])
    ensures ops[i].DoAdd? && forall k | 0 <= k < |v| :: v[k].service.ip != ops[i].addr.service.ip
  {
    hide Good, OnlyShuffled, Presented, AllRecorded, Failures;
    CreatedByAdd(trace[i], ops[i], trace[i + 1], x);
    FailuresAddUp(ops, trace, x, i + 1, j);
    ThreeFailuresNotGiven(hs, ops, trace, x, i + 1, j, nNow, t, v);
  }
}
