/**
 Saving and loading the address manager.  The file holds the infos of all
 entries and, per new bucket, the numbers of its entries; ids, mapAddr, vRandom,
 the tried table and the positions inside a bucket are not written, and are
 rebuilt when the file is read.
 */
module AddrManStore {
  import opened AddrMan
  import opened Collections

  /** The part of an entry that is written. */
  datatype Persisted = Persisted(addr: Address, source: NetAddr, nLastSuccess: int, nAttempts: nat)

  /** The stream, item by item: a header, all infos, and a list per bucket. */
  datatype Saved = Saved(nVersion: nat, nKeySize: nat, nKey: nat, nNew: nat, nTried: nat, nUBuckets: nat,
                         infos: seq<Persisted>, buckets: seq<seq<int>>)

  function Persist(info: Info): Persisted {
    Persisted(info.addr, info.source, info.nLastSuccess, info.nAttempts)
  }

  // Exclusive or with 2^30.
  function Marked(x: nat): nat {
    if (x / 0x4000_0000) % 2 == 0 then x + 0x4000_0000 else x - 0x4000_0000
  }

  // Marking again takes the mark away; the number of buckets fits below it.
  lemma MarkedTwice(x: nat)
    ensures Marked(Marked(x)) == x && Marked(x) != x && Marked(NEW_BUCKET_COUNT) == 0x4000_0400
  {
    var q := x / 0x4000_0000;
    assert x == q * 0x4000_0000 + x % 0x4000_0000;
  }

  // ------------------------------------------------------------------ saving

  // The two lists of the file: entries with a reference, and tried entries.
  predicate OfKind(s: AddrState, fTried: bool, id: nat) {
    id in s.mapInfo && if fTried then s.mapInfo[id].fInTried else s.mapInfo[id].nRefCount != 0
  }

  // The entries of one list with ids below n, in ascending order.
  ghost function Listed(s: AddrState, fTried: bool, n: nat): seq<nat> {
    if n == 0 then []
    else Listed(s, fTried, n - 1) + (if OfKind(s, fTried, n - 1) then [n - 1] else [])
  }

  // The number of an entry in its list: how many come before it.
  ghost function Rank(s: AddrState, fTried: bool, id: nat): nat {
    |Listed(s, fTried, id)|
  }

  lemma {:induction false} ListedKnown(s: AddrState, fTried: bool, n: nat)
    ensures |Listed(s, fTried, n)| <= n
    ensures forall k | 0 <= k < |Listed(s, fTried, n)| :: Listed(s, fTried, n)[k] < n && OfKind(s, fTried, Listed(s, fTried, n)[k])
  {
    if n > 0 {
      ListedKnown(s, fTried, n - 1);
    }
  }

  lemma {:induction false} RankAt(s: AddrState, fTried: bool, n: nat, id: nat)
    requires id < n && OfKind(s, fTried, id)
    ensures Rank(s, fTried, id) < |Listed(s, fTried, n)| && Listed(s, fTried, n)[Rank(s, fTried, id)] == id
  {
    if id < n - 1 {
      RankAt(s, fTried, n - 1, id);
    }
  }

  lemma {:induction false} AtRank(s: AddrState, fTried: bool, n: nat, k: nat)
    requires k < |Listed(s, fTried, n)|
    ensures Rank(s, fTried, Listed(s, fTried, n)[k]) == k
  {
    if k < |Listed(s, fTried, n - 1)| {
      AtRank(s, fTried, n - 1, k);
    }
  }

  ghost function KindBelow(s: AddrState, fTried: bool, n: nat): set<nat> {
    set id | id in s.mapInfo && id < n && OfKind(s, fTried, id)
  }

  lemma KindStep(s: AddrState, fTried: bool, n: nat)
    requires n > 0
    ensures KindBelow(s, fTried, n) == KindBelow(s, fTried, n - 1) + if OfKind(s, fTried, n - 1) then {n - 1} else {}
    ensures n - 1 !in KindBelow(s, fTried, n - 1)
  {
  }

  lemma {:induction false} ListedCount(s: AddrState, fTried: bool, n: nat)
    ensures |Listed(s, fTried, n)| == |KindBelow(s, fTried, n)|
  {
    if n == 0 {
      assert KindBelow(s, fTried, n) == {};
    } else {
      ListedCount(s, fTried, n - 1);
      KindStep(s, fTried, n);
      hide KindBelow, OfKind;
    }
  }

  ghost function Infos(s: AddrState, fTried: bool, n: nat): seq<Persisted> {
    ListedKnown(s, fTried, n);
    seq(|Listed(s, fTried, n)|, k requires 0 <= k < |Listed(s, fTried, n)| => Persist(s.mapInfo[Listed(s, fTried, n)[k]]))
  }

  // The entries of a new bucket at positions below n, by their numbers.
  ghost function BucketList(s: AddrState, bucket: nat, n: nat): seq<int> {
    if n == 0 then []
    else BucketList(s, bucket, n - 1)
         + (if Slot(bucket, n - 1) in s.vvNew then [Rank(s, false, s.vvNew[Slot(bucket, n - 1)])] else [])
  }

  ghost function BucketLists(s: AddrState, n: nat): seq<seq<int>> {
    seq(n, b requires 0 <= b < n => BucketList(s, b, BUCKET_SIZE))
  }

  ghost function Save(s: AddrState): Saved
    requires s.nNew >= 0 && s.nTried >= 0
  {
    Saved(1, 32, s.nKey, s.nNew, s.nTried, Marked(NEW_BUCKET_COUNT),
          Infos(s, false, s.nIdCount) + Infos(s, true, s.nIdCount), BucketLists(s, NEW_BUCKET_COUNT))
  }

  // ----------------------------------------------------------------- loading

  // The next entry, as read from the stream.
  function Restored(st: AddrState, p: Persisted): AddrState {
    var x, c := st.nIdCount, Created(st, p.addr, p.source);
    c.(mapInfo := c.mapInfo[x := c.mapInfo[x].(nLastSuccess := p.nLastSuccess, nAttempts := p.nAttempts)])
  }

  // Reads one new entry.  When the bucket lists cannot be used, it goes where
  // its own source puts it, if that slot is free.
  function NewStep(hs: Hashes, st: AddrState, p: Persisted, fUsable: bool): AddrState {
    var x, r := st.nIdCount, Restored(st, p);
    var home := HomeSlot(hs, st.nKey, r.mapInfo[x]);
    if !fUsable && home !in r.vvNew then Linked(r, x, home) else r
  }

  ghost function LoadNew(hs: Hashes, st: AddrState, infos: seq<Persisted>, fUsable: bool): AddrState {
    if infos == [] then st
    else NewStep(hs, LoadNew(hs, st, infos[..|infos| - 1], fUsable), infos[|infos| - 1], fUsable)
  }

  // Reads one tried entry; it is lost if its slot is taken.
  function TriedStep(hs: Hashes, st: AddrState, p: Persisted): AddrState {
    if TriedSlot(hs, st.nKey, p.addr.service) in st.vvTried then st else Promoted(hs, Restored(st, p), st.nIdCount)
  }

  ghost function LoadTried(hs: Hashes, st: AddrState, infos: seq<Persisted>): AddrState {
    if infos == [] then st else TriedStep(hs, LoadTried(hs, st, infos[..|infos| - 1]), infos[|infos| - 1])
  }

  // Reads one number of a bucket list.
  function BucketStep(hs: Hashes, st: AddrState, bucket: nat, nIndex: int): AddrState {
    if 0 <= nIndex < st.nNew && nIndex in st.mapInfo then
      var slot := NewSlot(hs, st.nKey, bucket, st.mapInfo[nIndex].addr.service);
      if slot !in st.vvNew && st.mapInfo[nIndex].nRefCount < NEW_BUCKETS_PER_ADDRESS then Linked(st, nIndex, slot) else st
    else st
  }

  ghost function LoadBucket(hs: Hashes, st: AddrState, bucket: nat, list: seq<int>): AddrState {
    if list == [] then st
    else BucketStep(hs, LoadBucket(hs, st, bucket, list[..|list| - 1]), bucket, list[|list| - 1])
  }

  ghost function LoadBuckets(hs: Hashes, st: AddrState, buckets: seq<seq<int>>): AddrState {
    if buckets == [] then st
    else LoadBucket(hs, LoadBuckets(hs, st, buckets[..|buckets| - 1]), |buckets| - 1, buckets[|buckets| - 1])
  }

  function BucketCount(f: Saved): nat {
    if f.nVersion != 0 then Marked(f.nUBuckets) else f.nUBuckets
  }

  predicate Usable(f: Saved) {
    f.nVersion == 1 && BucketCount(f) == NEW_BUCKET_COUNT
  }

  // The stream is long enough and its header passes the checks.
  predicate Readable(f: Saved) {
    && f.nKeySize == 32
    && f.nNew <= NEW_BUCKET_COUNT * BUCKET_SIZE && f.nTried <= TRIED_BUCKET_COUNT * BUCKET_SIZE
    && |f.infos| >= f.nNew + f.nTried && |f.buckets| >= BucketCount(f)
  }

  // The state before entries without a reference are pruned.
  ghost function Load(hs: Hashes, f: Saved): AddrState
    requires Readable(f)
  {
    var a := LoadNew(hs, Empty(f.nKey).(nNew := f.nNew), f.infos[..f.nNew], Usable(f));
    var t := LoadTried(hs, a, f.infos[f.nNew..f.nNew + f.nTried]);
    if Usable(f) then LoadBuckets(hs, t, f.buckets[..BucketCount(f)]) else t
  }

  // -------------------------------------------------------- the two are inverse

  lemma CountsNatural(hs: Hashes, s: AddrState)
    requires Consistent(hs, s)
    ensures |Listed(s, false, s.nIdCount)| == s.nNew && |Listed(s, true, s.nIdCount)| == s.nTried
  {
    hide AddrIndex, RandomIndex, TriedTable, NewTable, Listed, BucketsOf;
    ListedCount(s, false, s.nIdCount);
    ListedCount(s, true, s.nIdCount);
    forall id | id in s.mapInfo
      ensures OfKind(s, false, id) <==> !s.mapInfo[id].fInTried
    {
      assert RefCount(hs, s, {}, id);
    }
    assert KindBelow(s, false, s.nIdCount) == NewIds(s);
    assert KindBelow(s, true, s.nIdCount) == TriedIds(s);
  }

  // The id an entry has after loading.
  ghost function Renamed(s: AddrState, id: nat): nat
    requires id in s.mapInfo
  {
    if s.mapInfo[id].fInTried then |Listed(s, false, s.nIdCount)| + Rank(s, true, id) else Rank(s, false, id)
  }

  // What an entry is called, and what is known about it, after loading.
  ghost predicate Copied(s: AddrState, id: nat, st: AddrState)
    requires id in s.mapInfo
  {
    && Renamed(s, id) in st.mapInfo
    && Persist(st.mapInfo[Renamed(s, id)]) == Persist(s.mapInfo[id])
    && st.mapInfo[Renamed(s, id)].fInTried == s.mapInfo[id].fInTried
  }

  ghost function Ids(n: nat): (r: set<nat>)
    ensures forall id: nat :: id in r <==> id < n
  {
    if n == 0 then {} else Ids(n - 1) + {n - 1}
  }

  lemma GoodRestored(hs: Hashes, st: AddrState, p: Persisted, limbo: set<nat>, dNew: int)
    requires Good(hs, st, limbo, dNew) && p.addr.service.ip !in st.mapAddr
    ensures Good(hs, Restored(st, p), limbo + {st.nIdCount}, dNew + 1)
    ensures st.nIdCount !in st.mapInfo
  {
    hide AddrIndex, RandomIndex, TriedTable, NewTable, RefCounts, Counts;
    GoodCreated(hs, st, p.addr, p.source, limbo, dNew);
    GoodTouched(hs, Created(st, p.addr, p.source), Restored(st, p), limbo + {st.nIdCount}, dNew + 1);
  }

  // A state with the first k new entries loaded.
  ghost predicate NewLoaded(hs: Hashes, s: AddrState, st: AddrState, k: nat) {
    && k <= |Listed(s, false, s.nIdCount)| && st.nIdCount == k && st.mapInfo.Keys == Ids(k)
    && st.nKey == s.nKey && st.nNew == s.nNew && st.vvNew == map[] && st.vvTried == map[] && st.nTried == 0
    && (forall j | 0 <= j < k :: CopiedNew(s, st, j))
    && Good(hs, st, Ids(k), k - s.nNew)
  }

  ghost predicate CopiedNew(s: AddrState, st: AddrState, j: nat) {
    && j < |Listed(s, false, s.nIdCount)| && j in st.mapInfo && Listed(s, false, s.nIdCount)[j] in s.mapInfo
    && Persist(st.mapInfo[j]) == Persist(s.mapInfo[Listed(s, false, s.nIdCount)[j]])
    && !st.mapInfo[j].fInTried && st.mapInfo[j].nRefCount == 0
  }

  lemma NewLoadedFree(hs: Hashes, s: AddrState, st: AddrState, k: nat)
    requires Consistent(hs, s) && NewLoaded(hs, s, st, k) && k < |Listed(s, false, s.nIdCount)|
    ensures Listed(s, false, s.nIdCount)[k] in s.mapInfo
    ensures s.mapInfo[Listed(s, false, s.nIdCount)[k]].Ip() !in st.mapAddr
  {
    ListedKnown(s, false, s.nIdCount);
    var ids := Listed(s, false, s.nIdCount);
    var ip := s.mapInfo[ids[k]].Ip();
    hide RandomIndex, IdsUsed, TriedTable, NewTable, RefCounts, Counts, Listed;
    if ip in st.mapAddr {
      var j := st.mapAddr[ip];
      assert j in st.mapInfo.Keys;
      assert CopiedNew(s, st, j);
      assert s.mapInfo[ids[j]].Ip() == ip;
      assert ids[j] == ids[k];
      AtRank(s, false, s.nIdCount, j);
      AtRank(s, false, s.nIdCount, k);
      assert false;
    }
  }

  lemma RestoredOthers(st: AddrState, p: Persisted)
    ensures var t, x := Restored(st, p), st.nIdCount;
            && t.mapInfo.Keys == st.mapInfo.Keys + {x} && (forall id | id in st.mapInfo && id != x :: t.mapInfo[id] == st.mapInfo[id])
            && t.nKey == st.nKey && t.nNew == st.nNew && t.vvNew == st.vvNew && t.vvTried == st.vvTried && t.nIdCount == x + 1 && t.nTried == st.nTried
            && Persist(t.mapInfo[x]) == p && !t.mapInfo[x].fInTried && t.mapInfo[x].nRefCount == 0
  {
  }

  lemma CopyKept(s: AddrState, st: AddrState, t: AddrState, j: nat)
    requires j in st.mapInfo ==> j in t.mapInfo && t.mapInfo[j] == st.mapInfo[j]
    ensures CopiedNew(s, st, j) ==> CopiedNew(s, t, j)
  {
    hide Listed;
  }

  lemma IdsGrow(n: nat)
    ensures Ids(n) + {n} == Ids(n + 1) && n !in Ids(n)
  {
  }

  lemma NewLoadedStep(hs: Hashes, s: AddrState, st: AddrState, k: nat)
    requires Consistent(hs, s) && NewLoaded(hs, s, st, k) && k < |Listed(s, false, s.nIdCount)|
    requires Listed(s, false, s.nIdCount)[k] in s.mapInfo
    ensures NewLoaded(hs, s, NewStep(hs, st, Persist(s.mapInfo[Listed(s, false, s.nIdCount)[k]]), true), k + 1)
  {
    hide Good, Listed, Ids, Restored, CopiedNew;
    NewLoadedFree(hs, s, st, k);
    var p := Persist(s.mapInfo[Listed(s, false, s.nIdCount)[k]]);
    GoodRestored(hs, st, p, Ids(k), k - s.nNew);
    IdsGrow(k);
    RestoredOthers(st, p);
    var t := Restored(st, p);
    forall j | 0 <= j < k + 1
      ensures CopiedNew(s, t, j)
    {
      if j < k {
        CopyKept(s, st, t, j);
      } else {
        NewlyCopied(s, t, k);
      }
    }
  }

  lemma NewlyCopied(s: AddrState, t: AddrState, k: nat)
    requires k < |Listed(s, false, s.nIdCount)| && Listed(s, false, s.nIdCount)[k] in s.mapInfo && k in t.mapInfo
    requires Persist(t.mapInfo[k]) == Persist(s.mapInfo[Listed(s, false, s.nIdCount)[k]])
    requires !t.mapInfo[k].fInTried && t.mapInfo[k].nRefCount == 0
    ensures CopiedNew(s, t, k)
  {
  }

  lemma {:induction false} LoadNewCopies(hs: Hashes, s: AddrState, k: nat)
    requires Consistent(hs, s) && k <= |Listed(s, false, s.nIdCount)|
    ensures NewLoaded(hs, s, LoadNew(hs, Empty(s.nKey).(nNew := s.nNew), Infos(s, false, s.nIdCount)[..k], true), k)
  {
    hide Good;
    var infos, e := Infos(s, false, s.nIdCount), Empty(s.nKey).(nNew := s.nNew);
    if k == 0 {
      GoodEmpty(hs, s.nKey);
      GoodCounted(hs, Empty(s.nKey), {}, 0, s.nNew);
    } else {
      LoadNewCopies(hs, s, k - 1);
      assert infos[..k][..k - 1] == infos[..k - 1];
      ListedKnown(s, false, s.nIdCount);
      NewLoadedStep(hs, s, LoadNew(hs, e, infos[..k - 1], true), k - 1);
    }
  }

  // A state with all new and the first k tried entries loaded.
  ghost predicate TriedLoaded(hs: Hashes, s: AddrState, st: AddrState, k: nat) {
    && k <= |Listed(s, true, s.nIdCount)| && s.nNew == |Listed(s, false, s.nIdCount)|
    && st.nIdCount == s.nNew + k && st.mapInfo.Keys == Ids(s.nNew + k)
    && st.nKey == s.nKey && st.nNew == s.nNew && st.vvNew == map[] && st.nTried == k
    && (forall j | 0 <= j < s.nNew :: CopiedNew(s, st, j))
    && (forall j | 0 <= j < k :: CopiedTried(s, st, j))
    && Good(hs, st, Ids(s.nNew), 0)
  }

  ghost predicate CopiedTried(s: AddrState, st: AddrState, j: nat) {
    var x := |Listed(s, false, s.nIdCount)| + j;
    && j < |Listed(s, true, s.nIdCount)| && x in st.mapInfo && Listed(s, true, s.nIdCount)[j] in s.mapInfo
    && Persist(st.mapInfo[x]) == Persist(s.mapInfo[Listed(s, true, s.nIdCount)[j]])
    && st.mapInfo[x].fInTried && st.mapInfo[x].nRefCount == 0
  }

  // No address and no tried slot appears twice in the file.
  lemma TriedLoadedFree(hs: Hashes, s: AddrState, st: AddrState, k: nat)
    requires Consistent(hs, s) && TriedLoaded(hs, s, st, k) && k < |Listed(s, true, s.nIdCount)|
    ensures Listed(s, true, s.nIdCount)[k] in s.mapInfo
    ensures s.mapInfo[Listed(s, true, s.nIdCount)[k]].Ip() !in st.mapAddr
    ensures TriedSlot(hs, s.nKey, s.mapInfo[Listed(s, true, s.nIdCount)[k]].addr.service) !in st.vvTried
  {
    ListedKnown(s, true, s.nIdCount);
    var id := Listed(s, true, s.nIdCount)[k];
    hide RandomIndex, IdsUsed, NewTable, RefCounts, Counts, Listed;
    var ip := s.mapInfo[id].Ip();
    if ip in st.mapAddr {
      TriedLoadedOther(hs, s, st, k, st.mapAddr[ip]);
    }
    var slot := TriedSlot(hs, s.nKey, s.mapInfo[id].addr.service);
    if slot in st.vvTried {
      TriedLoadedOther(hs, s, st, k, st.vvTried[slot]);
    }
  }

  // Two entries of the manager differ in address, and tried ones in their slot.
  lemma EntriesDiffer(hs: Hashes, s: AddrState, x: nat, y: nat)
    requires Consistent(hs, s) && x in s.mapInfo && y in s.mapInfo && x != y
    ensures s.mapInfo[x].Ip() != s.mapInfo[y].Ip()
    ensures s.mapInfo[x].fInTried && s.mapInfo[y].fInTried ==>
              TriedSlot(hs, s.nKey, s.mapInfo[x].addr.service) != TriedSlot(hs, s.nKey, s.mapInfo[y].addr.service)
  {
    hide RandomIndex, IdsUsed, NewTable, RefCounts, Counts;
  }

  lemma KindsDiffer(hs: Hashes, s: AddrState, j: nat, k: nat)
    requires Consistent(hs, s) && j < |Listed(s, false, s.nIdCount)| && k < |Listed(s, true, s.nIdCount)|
    ensures Listed(s, false, s.nIdCount)[j] in s.mapInfo && Listed(s, true, s.nIdCount)[k] in s.mapInfo
    ensures Listed(s, false, s.nIdCount)[j] != Listed(s, true, s.nIdCount)[k]
  {
    ListedKnown(s, true, s.nIdCount);
    ListedKnown(s, false, s.nIdCount);
    hide RandomIndex, IdsUsed, NewTable, Counts, Listed;
    assert RefCount(hs, s, {}, Listed(s, true, s.nIdCount)[k]);
  }

  lemma TriedLoadedOther(hs: Hashes, s: AddrState, st: AddrState, k: nat, x: nat)
    requires Consistent(hs, s) && TriedLoaded(hs, s, st, k) && k < |Listed(s, true, s.nIdCount)| && x in st.mapInfo
    ensures Listed(s, true, s.nIdCount)[k] in s.mapInfo
    ensures st.mapInfo[x].Ip() != s.mapInfo[Listed(s, true, s.nIdCount)[k]].Ip()
    ensures st.mapInfo[x].fInTried ==>
              TriedSlot(hs, s.nKey, st.mapInfo[x].addr.service) != TriedSlot(hs, s.nKey, s.mapInfo[Listed(s, true, s.nIdCount)[k]].addr.service)
  {
    hide Good, Listed, Ids, TriedSlot;
    KnownTried(s, k);
    var id := Listed(s, true, s.nIdCount)[k];
    assert x in st.mapInfo.Keys;
    if x < s.nNew {
      assert CopiedNew(s, st, x);
      KindsDiffer(hs, s, x, k);
      EntriesDiffer(hs, s, Listed(s, false, s.nIdCount)[x], id);
    } else {
      var j := x - s.nNew;
      assert CopiedTried(s, st, j);
      AtRank(s, true, s.nIdCount, j);
      AtRank(s, true, s.nIdCount, k);
      KnownTried(s, j);
      EntriesDiffer(hs, s, Listed(s, true, s.nIdCount)[j], id);
    }
  }

  lemma KnownTried(s: AddrState, k: nat)
    requires k < |Listed(s, true, s.nIdCount)|
    ensures OfKind(s, true, Listed(s, true, s.nIdCount)[k])
  {
    ListedKnown(s, true, s.nIdCount);
  }

  lemma PromotedOthers(hs: Hashes, r: AddrState, x: nat)
    requires x in r.mapInfo
    ensures var t := Promoted(hs, r, x);
            && t.mapInfo.Keys == r.mapInfo.Keys && (forall id | id in r.mapInfo && id != x :: t.mapInfo[id] == r.mapInfo[id])
            && t.nKey == r.nKey && t.nNew == r.nNew && t.vvNew == r.vvNew && t.nIdCount == r.nIdCount && t.nTried == r.nTried + 1
            && t.mapInfo[x] == r.mapInfo[x].(fInTried := true)
  {
  }

  lemma TriedCopyKept(s: AddrState, st: AddrState, t: AddrState, j: nat)
    requires var x := |Listed(s, false, s.nIdCount)| + j; x in st.mapInfo ==> x in t.mapInfo && t.mapInfo[x] == st.mapInfo[x]
    ensures CopiedTried(s, st, j) ==> CopiedTried(s, t, j)
  {
    hide Listed;
  }

  lemma NewlyCopiedTried(s: AddrState, t: AddrState, k: nat)
    requires var x := |Listed(s, false, s.nIdCount)| + k;
             && k < |Listed(s, true, s.nIdCount)| && Listed(s, true, s.nIdCount)[k] in s.mapInfo && x in t.mapInfo
             && Persist(t.mapInfo[x]) == Persist(s.mapInfo[Listed(s, true, s.nIdCount)[k]])
             && t.mapInfo[x].fInTried && t.mapInfo[x].nRefCount == 0
    ensures CopiedTried(s, t, k)
  {
  }

  lemma TriedLoadedStep(hs: Hashes, s: AddrState, st: AddrState, k: nat)
    requires Consistent(hs, s) && TriedLoaded(hs, s, st, k) && k < |Listed(s, true, s.nIdCount)|
    requires Listed(s, true, s.nIdCount)[k] in s.mapInfo
    ensures TriedLoaded(hs, s, TriedStep(hs, st, Persist(s.mapInfo[Listed(s, true, s.nIdCount)[k]])), k + 1)
  {
    hide Good, Listed, TriedSlot, Ids, Restored, Promoted, CopiedNew, CopiedTried;
    TriedLoadedFree(hs, s, st, k);
    var p, x := Persist(s.mapInfo[Listed(s, true, s.nIdCount)[k]]), s.nNew + k;
    GoodRestored(hs, st, p, Ids(s.nNew), 0);
    RestoredOthers(st, p);
    var r := Restored(st, p);
    GoodPromoted(hs, r, x, Ids(s.nNew) + {x}, 1);
    PromotedOthers(hs, r, x);
    assert Ids(s.nNew) + {x} - {x} == Ids(s.nNew);
    IdsGrow(x);
    var t := Promoted(hs, r, x);
    forall j | 0 <= j < s.nNew
      ensures CopiedNew(s, t, j)
    {
      CopyKept(s, st, t, j);
    }
    forall j | 0 <= j < k + 1
      ensures CopiedTried(s, t, j)
    {
      if j < k {
        TriedCopyKept(s, st, t, j);
      } else {
        NewlyCopiedTried(s, t, k);
      }
    }
  }

  lemma {:induction false} LoadTriedCopies(hs: Hashes, s: AddrState, st: AddrState, k: nat)
    requires Consistent(hs, s) && TriedLoaded(hs, s, st, 0) && k <= |Listed(s, true, s.nIdCount)|
    ensures TriedLoaded(hs, s, LoadTried(hs, st, Infos(s, true, s.nIdCount)[..k]), k)
  {
    hide Good;
    var infos := Infos(s, true, s.nIdCount);
    if k > 0 {
      LoadTriedCopies(hs, s, st, k - 1);
      assert infos[..k][..k - 1] == infos[..k - 1];
      ListedKnown(s, true, s.nIdCount);
      TriedLoadedStep(hs, s, LoadTried(hs, st, infos[..k - 1]), k - 1);
    }
  }

  lemma KindOf(hs: Hashes, s: AddrState, id: nat)
    requires Consistent(hs, s) && id in s.mapInfo
    ensures id < s.nIdCount && OfKind(s, s.mapInfo[id].fInTried, id)
  {
    assert RefCount(hs, s, {}, id);
  }

  lemma AllCopied(hs: Hashes, s: AddrState, st: AddrState, id: nat)
    requires Consistent(hs, s) && TriedLoaded(hs, s, st, |Listed(s, true, s.nIdCount)|) && id in s.mapInfo
    ensures Copied(s, id, st)
  {
    hide Good, Listed, Rank, Ids;
    KindOf(hs, s, id);
    if s.mapInfo[id].fInTried {
      RankAt(s, true, s.nIdCount, id);
      assert CopiedTried(s, st, Rank(s, true, id));
    } else {
      RankAt(s, false, s.nIdCount, id);
      assert CopiedNew(s, st, Rank(s, false, id));
    }
  }

  lemma RenamedInjective(hs: Hashes, s: AddrState, x: nat, y: nat)
    requires Consistent(hs, s) && x in s.mapInfo && y in s.mapInfo && Renamed(s, x) == Renamed(s, y)
    ensures x == y
  {
    hide RandomIndex, NewTable, TriedTable, Counts, Listed;
    RenamedKind(hs, s, x);
    RenamedKind(hs, s, y);
  }

  lemma RenamedKind(hs: Hashes, s: AddrState, x: nat)
    requires Consistent(hs, s) && x in s.mapInfo
    ensures s.nNew == |Listed(s, false, s.nIdCount)| && s.nTried == |Listed(s, true, s.nIdCount)|
    ensures if s.mapInfo[x].fInTried then s.nNew <= Renamed(s, x) < s.nNew + s.nTried && Listed(s, true, s.nIdCount)[Renamed(s, x) - s.nNew] == x
            else Renamed(s, x) < s.nNew && Listed(s, false, s.nIdCount)[Renamed(s, x)] == x
  {
    hide RandomIndex, NewTable, TriedTable, Counts, Listed;
    CountsNatural(hs, s);
    assert RefCount(hs, s, {}, x);
    RankAt(s, s.mapInfo[x].fInTried, s.nIdCount, x);
  }

  predicate Before(slot: Slot, b: nat, i: nat) {
    slot.bucket < b || (slot.bucket == b && slot.pos < i)
  }

  ghost function RenamedTable(s: AddrState, table: map<Slot, nat>): map<Slot, nat>
    requires forall slot | slot in table :: table[slot] in s.mapInfo
  {
    map slot | slot in table :: Renamed(s, table[slot])
  }

  ghost predicate TablesKnown(s: AddrState) {
    && (forall slot | slot in s.vvNew :: s.vvNew[slot] in s.mapInfo)
    && (forall slot | slot in s.vvTried :: s.vvTried[slot] in s.mapInfo)
  }

  lemma ConsistentKnown(hs: Hashes, s: AddrState)
    requires Consistent(hs, s)
    ensures TablesKnown(s) && s.nNew >= 0 && s.nTried >= 0
  {
  }

  ghost function TableBefore(s: AddrState, b: nat, i: nat): map<Slot, nat>
    requires TablesKnown(s)
  {
    map slot | slot in s.vvNew && Before(slot, b, i) :: Renamed(s, s.vvNew[slot])
  }

  // All entries are loaded, and the slots of the new table before (b, i).
  ghost predicate SlotsLoaded(hs: Hashes, s: AddrState, st: AddrState, b: nat, i: nat)
    requires TablesKnown(s)
    requires s.nNew >= 0 && s.nTried >= 0
  {
    && st.nKey == s.nKey && st.nNew == s.nNew && st.nTried == s.nTried && st.mapInfo.Keys == Ids(s.nNew + s.nTried)
    && (forall id | id in s.mapInfo :: Copied(s, id, st))
    && st.vvNew == TableBefore(s, b, i) && Good(hs, st, Ids(s.nNew), 0)
  }

  // The entry being placed has fewer places so far than in the saved manager.
  lemma PlacesLeft(hs: Hashes, s: AddrState, st: AddrState, b: nat, i: nat, x: nat)
    requires Consistent(hs, s) && s.nNew >= 0 && s.nTried >= 0 && SlotsLoaded(hs, s, st, b, i)
    requires Holds(s.vvNew, Slot(b, i), x)
    ensures Copied(s, x, st) && st.mapInfo[Renamed(s, x)].nRefCount < NEW_BUCKETS_PER_ADDRESS
  {
    hide AddrIndex, RandomIndex, IdsUsed, TriedTable, Counts, Renamed, Ids;
    var y := Renamed(s, x);
    assert RefCount(hs, s, {}, x);
    assert RefCount(hs, st, Ids(s.nNew), y);
    forall c | c in BucketsOf(hs, st, y)
      ensures c in BucketsOf(hs, s, x) && c != b
    {
      var slot := NewSlot(hs, s.nKey, c, s.mapInfo[x].addr.service);
      RenamedInjective(hs, s, s.vvNew[slot], x);
    }
    assert b in BucketsOf(hs, s, x);
    Subsets(BucketsOf(hs, st, y), BucketsOf(hs, s, x), b);
  }

  lemma Subsets(a: set<nat>, c: set<nat>, b: nat)
    requires b in c && b !in a && a <= c
    ensures |a| < |c|
  {
    SubsetSize(a, c - {b});
  }

  lemma TableGrows(s: AddrState, b: nat, i: nat)
    requires TablesKnown(s)
    ensures var slot := Slot(b, i);
            && slot !in TableBefore(s, b, i)
            && TableBefore(s, b, i + 1) == if slot in s.vvNew then TableBefore(s, b, i)[slot := Renamed(s, s.vvNew[slot])] else TableBefore(s, b, i)
  {
    hide Renamed;
  }

  lemma OccupantFacts(hs: Hashes, s: AddrState, slot: Slot)
    requires Consistent(hs, s) && slot in s.vvNew
    ensures var x := s.vvNew[slot];
            && x in s.mapInfo && !s.mapInfo[x].fInTried && slot.bucket < NEW_BUCKET_COUNT
            && NewSlot(hs, s.nKey, slot.bucket, s.mapInfo[x].addr.service) == slot
  {
  }

  lemma GoodPlaced(hs: Hashes, st: AddrState, y: nat, slot: Slot, limbo: set<nat>)
    requires Good(hs, st, limbo, 0)
    requires y in st.mapInfo && !st.mapInfo[y].fInTried && st.mapInfo[y].nRefCount < NEW_BUCKETS_PER_ADDRESS
    requires slot !in st.vvNew && slot.bucket < NEW_BUCKET_COUNT
    requires slot == NewSlot(hs, st.nKey, slot.bucket, st.mapInfo[y].addr.service)
    ensures Good(hs, Linked(st, y, slot), limbo, 0)
  {
    hide Good, Linked, NewSlot;
    GoodLinked(hs, st, y, slot, limbo, 0);
    LimboShrinks(hs, Linked(st, y, slot), limbo - {y}, limbo, 0);
  }

  lemma SlotLoadedStep(hs: Hashes, s: AddrState, st: AddrState, b: nat, i: nat)
    requires Consistent(hs, s) && s.nNew >= 0 && s.nTried >= 0 && SlotsLoaded(hs, s, st, b, i) && Slot(b, i) in s.vvNew
    ensures SlotsLoaded(hs, s, BucketStep(hs, st, b, Rank(s, false, s.vvNew[Slot(b, i)])), b, i + 1)
  {
    hide Good, TablesKnown, Ids, Linked, NewSlot, TableBefore, Rank, Renamed, Persist;
    ConsistentKnown(hs, s);
    var slot := Slot(b, i);
    OccupantFacts(hs, s, slot);
    var x := s.vvNew[slot];
    PlacesLeft(hs, s, st, b, i, x);
    CopiedService(s, x, st);
    TableGrows(s, b, i);
    RenamedKind(hs, s, x);
    var y := Renamed(s, x);
    NotTried(s, x);
    GoodPlaced(hs, st, y, slot, Ids(s.nNew));
    LinkedCopies(s, st, y, slot);
  }

  lemma CopiedService(s: AddrState, x: nat, st: AddrState)
    requires x in s.mapInfo && Copied(s, x, st)
    ensures st.mapInfo[Renamed(s, x)].addr == s.mapInfo[x].addr
  {
  }

  lemma NotTried(s: AddrState, x: nat)
    requires x in s.mapInfo && !s.mapInfo[x].fInTried
    ensures Renamed(s, x) == Rank(s, false, x)
  {
  }

  lemma LinkedCopies(s: AddrState, st: AddrState, y: nat, slot: Slot)
    requires y in st.mapInfo && forall id | id in s.mapInfo :: Copied(s, id, st)
    ensures var t := Linked(st, y, slot);
            && t.nKey == st.nKey && t.nNew == st.nNew && t.nTried == st.nTried && t.mapInfo.Keys == st.mapInfo.Keys
            && t.vvNew == st.vvNew[slot := y] && (forall id | id in s.mapInfo :: Copied(s, id, t))
  {
    hide Renamed;
  }

  lemma {:induction false} LoadBucketCopies(hs: Hashes, s: AddrState, st: AddrState, b: nat, i: nat)
    requires Consistent(hs, s) && TablesKnown(s) && s.nNew >= 0 && s.nTried >= 0 && SlotsLoaded(hs, s, st, b, 0)
    ensures SlotsLoaded(hs, s, LoadBucket(hs, st, b, BucketList(s, b, i)), b, i)
  {
    hide Good, TablesKnown, SlotsLoaded, BucketStep, Rank;
    if i > 0 {
      LoadBucketCopies(hs, s, st, b, i - 1);
      var list, u := BucketList(s, b, i), LoadBucket(hs, st, b, BucketList(s, b, i - 1));
      if Slot(b, i - 1) in s.vvNew {
        assert list[..|list| - 1] == BucketList(s, b, i - 1);
        SlotLoadedStep(hs, s, u, b, i - 1);
      } else {
        assert list == BucketList(s, b, i - 1);
        SlotEmptyStep(hs, s, u, b, i - 1);
      }
    }
  }

  lemma SlotEmptyStep(hs: Hashes, s: AddrState, st: AddrState, b: nat, i: nat)
    requires TablesKnown(s) && s.nNew >= 0 && s.nTried >= 0 && SlotsLoaded(hs, s, st, b, i) && Slot(b, i) !in s.vvNew
    ensures SlotsLoaded(hs, s, st, b, i + 1)
  {
    hide Good, TablesKnown, TableBefore, Copied;
    TableGrows(s, b, i);
  }

  lemma BucketDone(hs: Hashes, s: AddrState, b: nat)
    requires Consistent(hs, s) && TablesKnown(s)
    ensures TableBefore(s, b, BUCKET_SIZE) == TableBefore(s, b + 1, 0)
  {
    hide AddrIndex, RandomIndex, IdsUsed, TriedTable, RefCounts, Counts, Renamed;
  }

  lemma {:induction false} LoadBucketsCopies(hs: Hashes, s: AddrState, st: AddrState, b: nat)
    requires Consistent(hs, s) && TablesKnown(s) && s.nNew >= 0 && s.nTried >= 0 && SlotsLoaded(hs, s, st, 0, 0)
    requires b <= NEW_BUCKET_COUNT
    ensures SlotsLoaded(hs, s, LoadBuckets(hs, st, BucketLists(s, NEW_BUCKET_COUNT)[..b]), b, 0)
  {
    hide Good, TablesKnown, TableBefore, BucketList, LoadBucket, Copied;
    if b > 0 {
      LoadBucketsCopies(hs, s, st, b - 1);
      var lists := BucketLists(s, NEW_BUCKET_COUNT);
      assert lists[..b][..b - 1] == lists[..b - 1];
      LoadBucketCopies(hs, s, LoadBuckets(hs, st, lists[..b - 1]), b - 1, BUCKET_SIZE);
      BucketDone(hs, s, b - 1);
    }
  }

  // ------------------------------------------------------------ the main results

  ghost predicate SamePlaces(s: AddrState, x: nat, t: AddrState)
    requires x in s.mapInfo
  {
    Renamed(s, x) in t.mapInfo && t.mapInfo[Renamed(s, x)].nRefCount == s.mapInfo[x].nRefCount
  }

  // The same manager up to the names of its entries: a bijection between the
  // ids that keeps what is written of an entry, its kind, its number of places,
  // and maps each index of the one manager to that of the other.
  ghost predicate SameUpToIds(s: AddrState, t: AddrState)
    requires TablesKnown(s)
  {
    && t.nKey == s.nKey && t.nNew == s.nNew && t.nTried == s.nTried
    && (forall x, y | x in s.mapInfo && y in s.mapInfo && Renamed(s, x) == Renamed(s, y) :: x == y)
    && (forall y | y in t.mapInfo :: exists x :: x in s.mapInfo && Renamed(s, x) == y)
    && (forall x | x in s.mapInfo :: Copied(s, x, t) && SamePlaces(s, x, t))
    && t.vvNew == RenamedTable(s, s.vvNew) && t.vvTried == RenamedTable(s, s.vvTried)
    && (forall ip :: ip in t.mapAddr <==> ip in s.mapAddr)
    && (forall ip | ip in s.mapAddr :: s.mapAddr[ip] in s.mapInfo && t.mapAddr[ip] == Renamed(s, s.mapAddr[ip]))
  }

  lemma SameBuckets(hs: Hashes, s: AddrState, t: AddrState, x: nat)
    requires Consistent(hs, s) && TablesKnown(s) && x in s.mapInfo && Copied(s, x, t) && t.nKey == s.nKey
    requires t.vvNew == RenamedTable(s, s.vvNew)
    ensures BucketsOf(hs, t, Renamed(s, x)) == BucketsOf(hs, s, x)
  {
    hide Good, Renamed;
    var y := Renamed(s, x);
    forall c: nat | c < NEW_BUCKET_COUNT
      ensures c in BucketsOf(hs, t, y) <==> c in BucketsOf(hs, s, x)
    {
      var slot := NewSlot(hs, s.nKey, c, s.mapInfo[x].addr.service);
      if slot in s.vvNew && Renamed(s, s.vvNew[slot]) == y {
        RenamedInjective(hs, s, s.vvNew[slot], x);
      }
    }
  }

  lemma SameCount(hs: Hashes, s: AddrState, t: AddrState, x: nat)
    requires Consistent(hs, s) && TablesKnown(s) && x in s.mapInfo && Copied(s, x, t) && t.nKey == s.nKey && s.nNew >= 0
    requires t.vvNew == RenamedTable(s, s.vvNew) && Good(hs, t, Ids(s.nNew), 0)
    ensures SamePlaces(s, x, t)
    ensures !s.mapInfo[x].fInTried ==> s.mapInfo[x].nRefCount > 0
  {
    hide AddrIndex, RandomIndex, IdsUsed, TriedTable, NewTable, Counts, Renamed, BucketsOf;
    SameBuckets(hs, s, t, x);
    assert RefCount(hs, s, {}, x);
    assert RefCount(hs, t, Ids(s.nNew), Renamed(s, x));
  }

  lemma OriginOf(hs: Hashes, s: AddrState, y: nat) returns (x: nat)
    requires Consistent(hs, s) && s.nNew >= 0 && s.nTried >= 0 && y < s.nNew + s.nTried
    ensures x in s.mapInfo && Renamed(s, x) == y
  {
    CountsNatural(hs, s);
    var fTried := y >= s.nNew;
    var k := if fTried then y - s.nNew else y;
    ListedKnown(s, fTried, s.nIdCount);
    AtRank(s, fTried, s.nIdCount, k);
    x := Listed(s, fTried, s.nIdCount)[k];
    hide AddrIndex, RandomIndex, TriedTable, NewTable, Counts, Listed;
    assert RefCount(hs, s, {}, x);
  }

  lemma LoadedConsistent(hs: Hashes, s: AddrState, t: AddrState)
    requires Consistent(hs, s) && TablesKnown(s) && s.nNew >= 0 && s.nTried >= 0 && SlotsLoaded(hs, s, t, NEW_BUCKET_COUNT, 0)
    requires t.vvNew == RenamedTable(s, s.vvNew)
    ensures Consistent(hs, t)
  {
    hide Good, TablesKnown, RenamedTable, Renamed, Copied;
    forall y | y in t.mapInfo && y in Ids(s.nNew)
      ensures t.mapInfo[y].fInTried || t.mapInfo[y].nRefCount > 0
    {
      var x := OriginOf(hs, s, y);
      SameCount(hs, s, t, x);
      CopiedKind(s, x, t);
    }
    LimboShrinks(hs, t, Ids(s.nNew), {}, 0);
  }

  lemma CopiedKind(s: AddrState, x: nat, t: AddrState)
    requires x in s.mapInfo && Copied(s, x, t)
    ensures t.mapInfo[Renamed(s, x)].fInTried == s.mapInfo[x].fInTried
    ensures t.mapInfo[Renamed(s, x)].Ip() == s.mapInfo[x].Ip()
  {
    hide Renamed;
  }

  lemma AllBefore(hs: Hashes, s: AddrState)
    requires Consistent(hs, s) && TablesKnown(s)
    ensures TableBefore(s, NEW_BUCKET_COUNT, 0) == RenamedTable(s, s.vvNew) && TableBefore(s, 0, 0) == map[]
  {
    hide AddrIndex, RandomIndex, IdsUsed, TriedTable, RefCounts, Counts, Renamed;
  }

  // The rebuilt tried table has each entry in the slot it had.
  lemma TriedTableRebuilt(hs: Hashes, s: AddrState, t: AddrState)
    requires Consistent(hs, s) && Consistent(hs, t) && TablesKnown(s) && t.nKey == s.nKey
    requires forall x | x in s.mapInfo :: Copied(s, x, t)
    requires forall y | y in t.mapInfo :: exists x :: x in s.mapInfo && Renamed(s, x) == y
    ensures t.vvTried == RenamedTable(s, s.vvTried)
  {
    hide AddrIndex, RandomIndex, IdsUsed, NewTable, RefCounts, Counts, Renamed, TriedSlot;
    forall slot | slot in s.vvTried
      ensures Holds(t.vvTried, slot, Renamed(s, s.vvTried[slot]))
    {
      var x := s.vvTried[slot];
      assert Copied(s, x, t);
    }
    forall slot | slot in t.vvTried
      ensures slot in s.vvTried
    {
      var y := t.vvTried[slot];
      var x :| x in s.mapInfo && Renamed(s, x) == y;
      assert Copied(s, x, t);
    }
  }

  lemma AddressesRebuilt(hs: Hashes, s: AddrState, t: AddrState)
    requires Consistent(hs, s) && Consistent(hs, t)
    requires forall x | x in s.mapInfo :: Copied(s, x, t)
    requires forall y | y in t.mapInfo :: exists x :: x in s.mapInfo && Renamed(s, x) == y
    ensures forall ip :: ip in t.mapAddr <==> ip in s.mapAddr
    ensures forall ip | ip in s.mapAddr :: s.mapAddr[ip] in s.mapInfo && t.mapAddr[ip] == Renamed(s, s.mapAddr[ip])
  {
    hide TriedTable, RandomIndex, IdsUsed, NewTable, RefCounts, Counts, Renamed;
    forall ip | ip in s.mapAddr
      ensures ip in t.mapAddr && s.mapAddr[ip] in s.mapInfo && t.mapAddr[ip] == Renamed(s, s.mapAddr[ip])
    {
      assert Copied(s, s.mapAddr[ip], t);
    }
    forall ip | ip in t.mapAddr
      ensures ip in s.mapAddr
    {
      var x :| x in s.mapInfo && Renamed(s, x) == t.mapAddr[ip];
      assert Copied(s, x, t);
    }
  }

  lemma LoadedSame(hs: Hashes, s: AddrState, t: AddrState)
    requires Consistent(hs, s) && TablesKnown(s) && s.nNew >= 0 && s.nTried >= 0 && SlotsLoaded(hs, s, t, NEW_BUCKET_COUNT, 0)
    ensures Consistent(hs, t) && SameUpToIds(s, t)
  {
    hide Good, TablesKnown, RenamedTable, Renamed, Copied, TableBefore;
    AllBefore(hs, s);
    LoadedConsistent(hs, s, t);
    forall y | y in t.mapInfo
      ensures exists x :: x in s.mapInfo && Renamed(s, x) == y
    {
      assert y in t.mapInfo.Keys;
      var x := OriginOf(hs, s, y);
    }
    forall x, y | x in s.mapInfo && y in s.mapInfo && Renamed(s, x) == Renamed(s, y)
      ensures x == y
    {
      RenamedInjective(hs, s, x, y);
    }
    forall x | x in s.mapInfo
      ensures Copied(s, x, t) && SamePlaces(s, x, t)
    {
      SameCount(hs, s, t, x);
    }
    TriedTableRebuilt(hs, s, t);
    AddressesRebuilt(hs, s, t);
  }

  // ---------------------------------------------------- the limits of the header

  lemma {:induction false} InjectiveBound(ids: set<nat>, f: nat -> nat, n: nat)
    requires forall x | x in ids :: f(x) < n
    requires forall x, y | x in ids && y in ids && f(x) == f(y) :: x == y
    ensures |ids| <= n
  {
    var image := set x | x in ids :: f(x);
    ImageSize(ids, f, image);
    assert image <= Ids(n);
    SubsetSize(image, Ids(n));
    IdsSize(n);
  }

  lemma {:induction false} ImageSize(ids: set<nat>, f: nat -> nat, image: set<nat>)
    requires image == set x | x in ids :: f(x)
    requires forall x, y | x in ids && y in ids && f(x) == f(y) :: x == y
    ensures |image| == |ids|
  {
    if ids == {} {
      assert image == {};
    } else {
      var x :| x in ids;
      assert image - {f(x)} == set y | y in ids - {x} :: f(y);
      ImageSize(ids - {x}, f, image - {f(x)});
      assert f(x) in image;
    }
  }

  lemma {:induction false} IdsSize(n: nat)
    ensures |Ids(n)| == n
  {
    if n > 0 {
      IdsSize(n - 1);
    }
  }

  function SlotIndex(slot: Slot): nat {
    slot.bucket * BUCKET_SIZE + slot.pos
  }

  // A slot of the new table that an entry stands in.
  ghost function SomeSlot(hs: Hashes, s: AddrState, x: nat): Slot
    requires x in s.mapInfo && BucketsOf(hs, s, x) != {}
  {
    var b :| b in BucketsOf(hs, s, x);
    NewSlot(hs, s.nKey, b, s.mapInfo[x].addr.service)
  }

  ghost function IndexIn(hs: Hashes, s: AddrState, fTried: bool, x: nat): nat {
    if x !in s.mapInfo then 0
    else if fTried then SlotIndex(TriedSlot(hs, s.nKey, s.mapInfo[x].addr.service))
    else if BucketsOf(hs, s, x) == {} then 0
    else SlotIndex(SomeSlot(hs, s, x))
  }

  lemma IndexesDiffer(a: Slot, b: Slot)
    requires a.pos < BUCKET_SIZE && b.pos < BUCKET_SIZE && SlotIndex(a) == SlotIndex(b)
    ensures a == b
  {
  }

  lemma NewIndex(hs: Hashes, s: AddrState, x: nat)
    requires Consistent(hs, s) && x in s.mapInfo && !s.mapInfo[x].fInTried
    ensures BucketsOf(hs, s, x) != {} && Holds(s.vvNew, SomeSlot(hs, s, x), x)
    ensures SomeSlot(hs, s, x).pos < BUCKET_SIZE && IndexIn(hs, s, false, x) < NEW_BUCKET_COUNT * BUCKET_SIZE
  {
    hide AddrIndex, RandomIndex, IdsUsed, TriedTable, NewTable, Counts;
    InSomeBucket(hs, s, x);
  }

  lemma TriedIndex(hs: Hashes, s: AddrState, x: nat)
    requires x in s.mapInfo
    ensures TriedSlot(hs, s.nKey, s.mapInfo[x].addr.service).pos < BUCKET_SIZE
    ensures IndexIn(hs, s, true, x) < TRIED_BUCKET_COUNT * BUCKET_SIZE
  {
  }

  lemma NewLimit(hs: Hashes, s: AddrState)
    requires Consistent(hs, s)
    ensures s.nNew <= 65_536
  {
    assert s.nNew == |NewIds(s)|;
    hide Good, SlotIndex;
    var f := (x: nat) => IndexIn(hs, s, false, x);
    forall x | x in NewIds(s)
      ensures f(x) < NEW_BUCKET_COUNT * BUCKET_SIZE
    {
      NewIndex(hs, s, x);
    }
    forall x, y | x in NewIds(s) && y in NewIds(s) && f(x) == f(y)
      ensures x == y
    {
      NewIndex(hs, s, x);
      NewIndex(hs, s, y);
      IndexesDiffer(SomeSlot(hs, s, x), SomeSlot(hs, s, y));
    }
    InjectiveBound(NewIds(s), f, NEW_BUCKET_COUNT * BUCKET_SIZE);
  }

  lemma TriedLimit(hs: Hashes, s: AddrState)
    requires Consistent(hs, s)
    ensures s.nTried <= 16_384
  {
    assert s.nTried == |TriedIds(s)|;
    hide Good, SlotIndex, TriedSlot;
    var f := (x: nat) => IndexIn(hs, s, true, x);
    forall x | x in TriedIds(s)
      ensures f(x) < TRIED_BUCKET_COUNT * BUCKET_SIZE
    {
      TriedIndex(hs, s, x);
    }
    forall x, y | x in TriedIds(s) && y in TriedIds(s) && f(x) == f(y)
      ensures x == y
    {
      TriedIndex(hs, s, x);
      TriedIndex(hs, s, y);
      IndexesDiffer(TriedSlot(hs, s.nKey, s.mapInfo[x].addr.service), TriedSlot(hs, s.nKey, s.mapInfo[y].addr.service));
      if x != y {
        EntriesDiffer(hs, s, x, y);
      }
    }
    InjectiveBound(TriedIds(s), f, TRIED_BUCKET_COUNT * BUCKET_SIZE);
  }

  lemma SavedReadable(hs: Hashes, s: AddrState)
    requires Consistent(hs, s)
    ensures s.nNew >= 0 && s.nTried >= 0 && Readable(Save(s)) && Usable(Save(s))
    ensures Save(s).infos[..s.nNew] == Infos(s, false, s.nIdCount)
    ensures Save(s).infos[s.nNew..s.nNew + s.nTried] == Infos(s, true, s.nIdCount)
  {
    ConsistentKnown(hs, s);
    hide Good;
    CountsNatural(hs, s);
    NewLimit(hs, s);
    TriedLimit(hs, s);
  }

  // Whatever a consistent manager saves can be loaded, and yields the same
  // manager up to the names of its entries: nothing is lost to a collision.
  lemma RoundTrip(hs: Hashes, s: AddrState)
    requires Consistent(hs, s)
    ensures TablesKnown(s) && s.nNew >= 0 && s.nTried >= 0 && Readable(Save(s))
    ensures Consistent(hs, Load(hs, Save(s))) && SameUpToIds(s, Load(hs, Save(s)))
  {
    hide Good, TablesKnown, Infos, BucketList, BucketLists, LoadNew, LoadTried, LoadBuckets, SlotsLoaded, SameUpToIds;
    ConsistentKnown(hs, s);
    SavedReadable(hs, s);
    var f := Save(s);
    EntriesLoaded(hs, s);
    var t := LoadTried(hs, LoadNew(hs, Empty(s.nKey).(nNew := s.nNew), f.infos[..s.nNew], true), f.infos[s.nNew..s.nNew + s.nTried]);
    LoadBucketsCopies(hs, s, t, NEW_BUCKET_COUNT);
    LoadedSame(hs, s, LoadBuckets(hs, t, f.buckets[..NEW_BUCKET_COUNT]));
  }

  lemma EntriesLoaded(hs: Hashes, s: AddrState)
    requires Consistent(hs, s) && TablesKnown(s) && s.nNew >= 0 && s.nTried >= 0
    ensures var a := LoadNew(hs, Empty(s.nKey).(nNew := s.nNew), Infos(s, false, s.nIdCount), true);
            SlotsLoaded(hs, s, LoadTried(hs, a, Infos(s, true, s.nIdCount)), 0, 0)
  {
    hide Good, TablesKnown, LoadNew, LoadTried, TriedLoaded, SlotsLoaded;
    CountsNatural(hs, s);
    var news, trieds := Infos(s, false, s.nIdCount), Infos(s, true, s.nIdCount);
    assert news[..s.nNew] == news && trieds[..s.nTried] == trieds;
    hide Infos, Listed;
    LoadNewCopies(hs, s, s.nNew);
    var a := LoadNew(hs, Empty(s.nKey).(nNew := s.nNew), news, true);
    TriedStarts(hs, s, a);
    LoadTriedCopies(hs, s, a, s.nTried);
    SlotsStart(hs, s, LoadTried(hs, a, trieds));
  }

  lemma TriedStarts(hs: Hashes, s: AddrState, a: AddrState)
    requires s.nNew == |Listed(s, false, s.nIdCount)| && NewLoaded(hs, s, a, s.nNew)
    ensures TriedLoaded(hs, s, a, 0)
  {
    hide Good, CopiedNew, CopiedTried, Listed, Ids;
  }

  lemma SlotsStart(hs: Hashes, s: AddrState, t: AddrState)
    requires Consistent(hs, s) && TablesKnown(s) && TriedLoaded(hs, s, t, s.nTried) && s.nTried == |Listed(s, true, s.nIdCount)|
    ensures SlotsLoaded(hs, s, t, 0, 0)
  {
    hide Good, TablesKnown, CopiedNew, CopiedTried, Copied, TableBefore, Listed, Ids;
    AllBefore(hs, s);
    forall id | id in s.mapInfo
      ensures Copied(s, id, t)
    {
      AllCopied(hs, s, t, id);
    }
  }

  // ------------------------------------------------------------ CAddrMan::Serialize

  lemma InfosStep(s: AddrState, fTried: bool, n: nat)
    ensures Infos(s, fTried, n + 1) == Infos(s, fTried, n) + (if OfKind(s, fTried, n) then [Persist(s.mapInfo[n])] else [])
  {
    ListedKnown(s, fTried, n);
    ListedKnown(s, fTried, n + 1);
  }

  lemma ListedGrows(s: AddrState, fTried: bool, k: nat, n: nat)
    requires k < n && OfKind(s, fTried, k)
    ensures |Listed(s, fTried, k)| < |Listed(s, fTried, n)|
  {
    RankAt(s, fTried, n, k);
  }

  // Writes the entries of one kind in the order of their ids, and numbers all
  // entries on the way.  The source's assertions on the counters hold.
  method WriteInfos(m: Manager, fTried: bool) returns (infos: seq<Persisted>, mapIds: map<nat, int>)
    requires Consistent(m.hs, m.State())
    ensures infos == Infos(m.State(), fTried, m.nIdCount)
    ensures forall id | id in m.mapInfo :: id in mapIds && mapIds[id] == Rank(m.State(), fTried, id)
  {
    ghost var s := m.State();
    hide Good, Infos, Persist, Rank, Listed;
    CountsNatural(m.hs, s);
    ListedStart(s, fTried);
    IdsBelow(m.hs, s);
    infos, mapIds := [], map[];
    assert infos == Infos(s, fTried, 0) by {
      EmptyInfos(s, fTried);
    }
    var nIds := 0;
    for id := 0 to m.nIdCount
      invariant infos == Infos(s, fTried, id) && nIds == |Listed(s, fTried, id)|
      invariant forall x | x in s.mapInfo && x < id :: x in mapIds && mapIds[x] == Rank(s, fTried, x)
    {
      InfosStep(s, fTried, id);
      ListedStep(s, fTried, id);
      if id in m.mapInfo {
        mapIds := mapIds[id := nIds];
        var info := m.mapInfo[id];
        if (if fTried then info.fInTried else info.nRefCount != 0) {
          ListedGrows(s, fTried, id, s.nIdCount);
          assert nIds != if fTried then m.nTried else m.nNew;
          infos := infos + [Persist(info)];
          nIds := nIds + 1;
        }
      }
    }
  }

  lemma ListedStart(s: AddrState, fTried: bool)
    ensures Listed(s, fTried, 0) == []
  {
  }

  lemma ListedStep(s: AddrState, fTried: bool, n: nat)
    ensures |Listed(s, fTried, n + 1)| == |Listed(s, fTried, n)| + if OfKind(s, fTried, n) then 1 else 0
    ensures Rank(s, fTried, n) == |Listed(s, fTried, n)|
  {
  }

  lemma IdsBelow(hs: Hashes, s: AddrState)
    requires Consistent(hs, s)
    ensures forall id | id in s.mapInfo :: id < s.nIdCount
  {
    hide AddrIndex, RandomIndex, TriedTable, NewTable, RefCounts, Counts;
  }

  lemma EmptyInfos(s: AddrState, fTried: bool)
    ensures Infos(s, fTried, 0) == []
  {
  }

  method Serialize(m: Manager) returns (f: Saved)
    requires Consistent(m.hs, m.State())
    ensures m.nNew >= 0 && m.nTried >= 0 && f == Save(m.State())
  {
    ghost var s := m.State();
    ConsistentKnown(m.hs, s);
    hide Good, TablesKnown, Infos, Rank;
    var news, mapUnkIds := WriteInfos(m, false);
    var trieds, _ := WriteInfos(m, true);
    var buckets: seq<seq<int>> := [];
    for bucket := 0 to NEW_BUCKET_COUNT
      invariant buckets == BucketLists(s, bucket)
    {
      var list: seq<int> := [];
      for i := 0 to BUCKET_SIZE
        invariant list == BucketList(s, bucket, i)
      {
        if Slot(bucket, i) in m.vvNew {
          OccupantFacts(m.hs, s, Slot(bucket, i));
          list := list + [mapUnkIds[m.vvNew[Slot(bucket, i)]]];
        }
      }
      buckets := buckets + [list];
    }
    f := Saved(1, 32, m.nKey, m.nNew, m.nTried, Marked(NEW_BUCKET_COUNT), news + trieds, buckets);
  }

  // ---------------------------------------------------------- CAddrMan::Unserialize

  // Ids are handed out without gaps, and vRandom lists them.
  ghost predicate Dense(st: AddrState) {
    RandomIndex(st) && st.mapInfo.Keys == Ids(st.nIdCount)
  }

  lemma DenseRestored(st: AddrState, p: Persisted)
    requires Dense(st)
    ensures Dense(Restored(st, p))
  {
    hide RandomIndex, Ids;
    IdsGrow(st.nIdCount);
    assert st.nIdCount !in st.mapInfo.Keys;
    CreatedRandom(st, p.addr, p.source);
    ShapeKept(Created(st, p.addr, p.source), Restored(st, p));
  }

  lemma DenseKept(st: AddrState, t: AddrState)
    requires Dense(st) && SameShape(st, t)
    ensures Dense(t)
  {
    hide RandomIndex, Ids;
    ShapeKept(st, t);
  }

  lemma DenseNew(hs: Hashes, st: AddrState, p: Persisted, fUsable: bool)
    requires Dense(st)
    ensures Dense(NewStep(hs, st, p, fUsable)) && NewStep(hs, st, p, fUsable).nIdCount == st.nIdCount + 1
  {
    hide Dense;
    DenseRestored(st, p);
    DenseKept(Restored(st, p), NewStep(hs, st, p, fUsable));
  }

  lemma DenseTried(hs: Hashes, st: AddrState, p: Persisted)
    requires Dense(st)
    ensures Dense(TriedStep(hs, st, p)) && TriedStep(hs, st, p).nIdCount >= st.nIdCount
  {
    hide Dense;
    DenseRestored(st, p);
    if TriedSlot(hs, st.nKey, p.addr.service) !in st.vvTried {
      DenseKept(Restored(st, p), TriedStep(hs, st, p));
    }
  }

  lemma DenseBucket(hs: Hashes, st: AddrState, bucket: nat, nIndex: int)
    requires Dense(st)
    ensures Dense(BucketStep(hs, st, bucket, nIndex)) && BucketStep(hs, st, bucket, nIndex).nIdCount == st.nIdCount
    ensures BucketStep(hs, st, bucket, nIndex).nNew == st.nNew
  {
    hide Dense;
    DenseKept(st, BucketStep(hs, st, bucket, nIndex));
  }

  // One round of the first loop.
  method ReadNew(m: Manager, n: nat, p: Persisted, fUsable: bool)
    modifies m`mapInfo, m`mapAddr, m`vRandom, m`vvNew
    ensures m.State().(nIdCount := n + 1, nTried := 0) == NewStep(m.hs, old(m.State()).(nIdCount := n, nTried := 0), p, fUsable)
  {
    hide HomeSlot;
    var info := Info(p.addr, p.source, 0, 0, p.nLastSuccess, p.nAttempts, 0, false, |m.vRandom|);
    m.mapAddr := m.mapAddr[info.Ip() := n];
    m.vRandom := m.vRandom + [n];
    var home := HomeSlot(m.hs, m.nKey, info);
    if !fUsable && home !in m.vvNew {
      m.vvNew := m.vvNew[home := n];
      info := info.(nRefCount := info.nRefCount + 1);
    }
    m.mapInfo := m.mapInfo[n := info];
  }

  // One round of the second loop.
  method ReadTried(m: Manager, p: Persisted) returns (fLost: bool)
    modifies m`mapInfo, m`mapAddr, m`vRandom, m`vvTried, m`nIdCount
    ensures forall k: nat :: m.State().(nTried := if fLost then k else k + 1) == TriedStep(m.hs, old(m.State()).(nTried := k), p)
  {
    hide TriedSlot;
    var slot := TriedSlot(m.hs, m.nKey, p.addr.service);
    fLost := slot in m.vvTried;
    if !fLost {
      var info := Info(p.addr, p.source, 0, 0, p.nLastSuccess, p.nAttempts, 0, true, |m.vRandom|);
      m.vRandom := m.vRandom + [m.nIdCount];
      m.mapInfo := m.mapInfo[m.nIdCount := info];
      m.mapAddr := m.mapAddr[info.Ip() := m.nIdCount];
      m.vvTried := m.vvTried[slot := m.nIdCount];
      m.nIdCount := m.nIdCount + 1;
    }
  }

  // One round of the third loop.
  method ReadPlace(m: Manager, bucket: nat, nIndex: int, fUsable: bool)
    requires Dense(m.State()) && m.nNew <= m.nIdCount
    modifies m`mapInfo, m`vvNew
    ensures m.State() == if fUsable then BucketStep(m.hs, old(m.State()), bucket, nIndex) else old(m.State())
  {
    if 0 <= nIndex < m.nNew {
      assert nIndex in m.mapInfo.Keys;
      var info := m.mapInfo[nIndex];
      var slot := NewSlot(m.hs, m.nKey, bucket, info.addr.service);
      if fUsable && slot !in m.vvNew && info.nRefCount < NEW_BUCKETS_PER_ADDRESS {
        m.mapInfo := m.mapInfo[nIndex := info.(nRefCount := info.nRefCount + 1)];
        m.vvNew := m.vvNew[slot := nIndex];
      }
    }
  }

  method ReadNews(m: Manager, infos: seq<Persisted>, fUsable: bool)
    requires Dense(m.State()) && m.nIdCount == 0 && m.nTried >= 0
    modifies m
    ensures m.State() == LoadNew(m.hs, old(m.State()).(nTried := 0), infos, fUsable).(nTried := old(m.nTried))
    ensures m.nIdCount == |infos| && m.nNew == old(m.nNew) && Dense(m.State())
  {
    hide Dense, NewStep;
    ghost var e := m.State().(nTried := 0);
    DenseKept(m.State(), e);
    var n := 0;
    while n < |infos|
      invariant n <= |infos| && m.nTried == old(m.nTried) && m.nIdCount == 0 && m.nNew == old(m.nNew)
      invariant m.State().(nIdCount := n, nTried := 0) == LoadNew(m.hs, e, infos[..n], fUsable)
      invariant Dense(m.State().(nIdCount := n, nTried := 0))
    {
      DenseNew(m.hs, m.State().(nIdCount := n, nTried := 0), infos[n], fUsable);
      assert infos[..n + 1][..n] == infos[..n];
      ReadNew(m, n, infos[n], fUsable);
      n := n + 1;
    }
    assert infos[..n] == infos;
    m.nIdCount := |infos|;
    DenseKept(m.State().(nTried := 0), m.State());
  }

  method ReadTrieds(m: Manager, infos: seq<Persisted>)
    requires Dense(m.State()) && m.nTried == |infos|
    modifies m
    ensures m.State() == LoadTried(m.hs, old(m.State()).(nTried := 0), infos)
    ensures m.nIdCount >= old(m.nIdCount) && m.nNew == old(m.nNew) && Dense(m.State())
  {
    hide Dense, TriedStep;
    ghost var a := m.State().(nTried := 0);
    DenseKept(m.State(), a);
    var n, nLost := 0, 0;
    while n < |infos|
      invariant nLost <= n <= |infos| && m.nTried == |infos| && m.nIdCount >= old(m.nIdCount) && m.nNew == old(m.nNew)
      invariant m.State().(nTried := n - nLost) == LoadTried(m.hs, a, infos[..n])
      invariant Dense(m.State().(nTried := n - nLost))
    {
      DenseTried(m.hs, m.State().(nTried := n - nLost), infos[n]);
      assert infos[..n + 1][..n] == infos[..n];
      var fLost := ReadTried(m, infos[n]);
      if fLost {
        nLost := nLost + 1;
      }
      n := n + 1;
    }
    assert infos[..n] == infos;
    m.nTried := m.nTried - nLost;
  }

  method ReadBucket(m: Manager, bucket: nat, list: seq<int>, fUsable: bool)
    requires Dense(m.State()) && m.nNew <= m.nIdCount
    modifies m`mapInfo, m`vvNew
    ensures m.State() == if fUsable then LoadBucket(m.hs, old(m.State()), bucket, list) else old(m.State())
    ensures Dense(m.State())
  {
    hide Dense, BucketStep;
    ghost var st := m.State();
    for n := 0 to |list|
      invariant m.State() == if fUsable then LoadBucket(m.hs, st, bucket, list[..n]) else st
      invariant Dense(m.State()) && m.nNew <= m.nIdCount
    {
      DenseBucket(m.hs, m.State(), bucket, list[n]);
      assert list[..n + 1][..n] == list[..n];
      ReadPlace(m, bucket, list[n], fUsable);
    }
    assert list[..|list|] == list;
  }

  method ReadBuckets(m: Manager, buckets: seq<seq<int>>, fUsable: bool)
    requires Dense(m.State()) && m.nNew <= m.nIdCount
    modifies m`mapInfo, m`vvNew
    ensures m.State() == if fUsable then LoadBuckets(m.hs, old(m.State()), buckets) else old(m.State())
    ensures Dense(m.State())
  {
    hide Dense, LoadBucket;
    ghost var st := m.State();
    for bucket := 0 to |buckets|
      invariant m.State() == if fUsable then LoadBuckets(m.hs, st, buckets[..bucket]) else st
      invariant Dense(m.State()) && m.nNew <= m.nIdCount
    {
      assert buckets[..bucket + 1][..bucket] == buckets[..bucket];
      ReadBucket(m, bucket, buckets[bucket], fUsable);
    }
    assert buckets[..|buckets|] == buckets;
  }

  ghost predicate NothingToPrune(st: AddrState) {
    forall id | id in st.mapInfo :: HasPlace(st.mapInfo[id])
  }

  lemma DeletedRandom(s: AddrState, x: nat)
    requires RandomIndex(s) && x in s.mapInfo
    ensures RandomIndex(Deleted(s, x))
  {
    hide RandomIndex, Swapped, Popped;
    SwappedToEnd(s, x);
    SwappedIndex(s, s.mapInfo[x].nRandomPos, |s.vRandom| - 1);
    PoppedRandom(Swapped(s, s.mapInfo[x].nRandomPos, |s.vRandom| - 1), x);
  }

  predicate HasPlace(info: Info) {
    info.fInTried || info.nRefCount != 0
  }

  // Pruning has dealt with the ids below n.
  ghost predicate PrunedBelow(s: AddrState, u: AddrState, n: nat) {
    && u.nIdCount == s.nIdCount && u.mapInfo.Keys <= s.mapInfo.Keys
    && (forall x | x in u.mapInfo :: SameEntry(s, u, x))
    && (forall x | x in u.mapInfo && x < n :: HasPlace(u.mapInfo[x]))
    && (forall x | x in s.mapInfo && HasPlace(s.mapInfo[x]) :: SameEntry(s, u, x))
    && (NothingToPrune(s) ==> u == s)
  }

  lemma PruneStep(s: AddrState, u: AddrState, n: nat)
    requires PrunedBelow(s, u, n) && RandomIndex(u) && n in u.mapInfo && !HasPlace(u.mapInfo[n])
    ensures PrunedBelow(s, Deleted(u, n), n + 1)
  {
    hide RandomIndex, Deleted;
    DeletedOnly(u, n);
    var t := Deleted(u, n);
    assert t.nIdCount == u.nIdCount;
    forall x | x in u.mapInfo && x != n
      ensures SameEntry(s, t, x)
    {
      assert SameEntry(s, u, x) && SameEntry(u, t, x);
    }
    assert SameEntry(s, u, n);
  }

  // The manager without those of the first n entries that have no place,
  // deleted one after the other.
  ghost function Pruned(s: AddrState, n: nat): (u: AddrState)
    requires RandomIndex(s)
    ensures RandomIndex(u)
  {
    if n == 0 then s else
    var u := Pruned(s, n - 1);
    if n - 1 in u.mapInfo && !HasPlace(u.mapInfo[n - 1]) then
      DeletedRandom(u, n - 1);
      Deleted(u, n - 1)
    else u
  }

  lemma PrunedNone(s: AddrState)
    requires RandomIndex(s)
    ensures Pruned(s, 0) == s
  {
  }

  lemma PrunedNext(s: AddrState, n: nat)
    requires RandomIndex(s)
    ensures var u := Pruned(s, n);
            Pruned(s, n + 1) == if n in u.mapInfo && !HasPlace(u.mapInfo[n]) then Deleted(u, n) else u
  {
    hide RandomIndex, Deleted;
  }

  lemma DenseMeans(st: AddrState)
    requires Dense(st)
    ensures RandomIndex(st)
  {
  }

  // Deletes the entries that no slot refers to.
  method Prune(m: Manager) returns (nLostUnk: nat)
    requires Dense(m.State())
    modifies m
    ensures m.State() == Pruned(old(m.State()), old(m.nIdCount))
    ensures RandomIndex(m.State()) && NothingToPrune(m.State())
    ensures NothingToPrune(old(m.State())) ==> m.State() == old(m.State())
    ensures forall id | id in old(m.mapInfo) && HasPlace(old(m.mapInfo[id])) :: SameEntry(old(m.State()), m.State(), id)
  {
    ghost var s := m.State();
    assert forall id | id in s.mapInfo :: id in s.mapInfo.Keys;
    hide RandomIndex, Deleted, Ids, PrunedBelow, Pruned;
    nLostUnk := 0;
    PruneStarts(s);
    PrunedNone(s);
    for id := 0 to m.nIdCount
      invariant m.nIdCount == s.nIdCount && RandomIndex(m.State()) && PrunedBelow(s, m.State(), id)
      invariant m.State() == Pruned(s, id)
    {
      PrunedNext(s, id);
      if id in m.mapInfo && !m.mapInfo[id].fInTried && m.mapInfo[id].nRefCount == 0 {
        DeletedRandom(m.State(), id);
        PruneStep(s, m.State(), id);
        m.Delete(id);
        PrunedCount(s, m.State(), id + 1);
        nLostUnk := nLostUnk + 1;
      } else {
        PruneSkips(s, m.State(), id);
      }
    }
    PruneEnds(s, m.State());
  }

  lemma PruneStarts(s: AddrState)
    ensures PrunedBelow(s, s, 0)
  {
  }

  lemma PrunedCount(s: AddrState, u: AddrState, n: nat)
    requires PrunedBelow(s, u, n)
    ensures u.nIdCount == s.nIdCount
  {
  }

  lemma PruneSkips(s: AddrState, u: AddrState, n: nat)
    requires PrunedBelow(s, u, n) && (n in u.mapInfo ==> HasPlace(u.mapInfo[n]))
    ensures PrunedBelow(s, u, n + 1)
  {
  }

  lemma PruneEnds(s: AddrState, u: AddrState)
    requires PrunedBelow(s, u, s.nIdCount) && s.mapInfo.Keys == Ids(s.nIdCount)
    ensures NothingToPrune(u) && (NothingToPrune(s) ==> u == s)
    ensures forall x | x in s.mapInfo && HasPlace(s.mapInfo[x]) :: SameEntry(s, u, x)
  {
    forall x | x in u.mapInfo
      ensures HasPlace(u.mapInfo[x])
    {
      assert x in u.mapInfo.Keys;
    }
  }

  // The state after the header.
  function Started(f: Saved): AddrState {
    Empty(f.nKey).(nNew := f.nNew, nTried := f.nTried)
  }

  lemma StartedFields(f: Saved)
    ensures Started(f).(nTried := 0) == Empty(f.nKey).(nNew := f.nNew)
    ensures Dense(Started(f)) && Started(f).nIdCount == 0 && Started(f).nTried == f.nTried && Started(f).nNew == f.nNew
  {
  }

  lemma RestoreTried(a: AddrState, nTried: int)
    requires a.nTried == 0
    ensures a.(nTried := nTried).(nTried := 0) == a
  {
  }

  lemma {:induction false} LoadNewTried(hs: Hashes, e: AddrState, infos: seq<Persisted>, fUsable: bool)
    ensures LoadNew(hs, e, infos, fUsable).nTried == e.nTried
  {
    if infos != [] {
      LoadNewTried(hs, e, infos[..|infos| - 1], fUsable);
    }
  }

  method ReadBody(m: Manager, f: Saved)
    requires Readable(f) && m.State() == Started(f)
    modifies m
    ensures Dense(m.State()) && m.State() == Load(m.hs, f)
  {
    hide Dense, LoadNew, LoadTried, LoadBuckets, Started, BucketCount, Empty, Usable;
    StartedFields(f);
    ReadNews(m, f.infos[..f.nNew], Usable(f));
    LoadNewTried(m.hs, Empty(f.nKey).(nNew := f.nNew), f.infos[..f.nNew], Usable(f));
    RestoreTried(LoadNew(m.hs, Empty(f.nKey).(nNew := f.nNew), f.infos[..f.nNew], Usable(f)), f.nTried);
    ReadTrieds(m, f.infos[f.nNew..f.nNew + f.nTried]);
    ReadBuckets(m, f.buckets[..BucketCount(f)], Usable(f));
  }

  // Reads a stream.  A bad header or a short stream is an error; otherwise the
  // entries are what Load says, less those that no slot refers to.
  method Unserialize(m: Manager, f: Saved, nKeyRandom: nat) returns (ok: bool)
    modifies m
    ensures ok <==> Readable(f)
    ensures ok ==> RandomIndex(m.State()) && NothingToPrune(m.State())
    ensures ok ==> RandomIndex(Load(m.hs, f)) && m.State() == Pruned(Load(m.hs, f), Load(m.hs, f).nIdCount)
    ensures ok && NothingToPrune(Load(m.hs, f)) ==> m.State() == Load(m.hs, f)
  {
    hide Pruned, Dense, RandomIndex, NothingToPrune, Load, BucketCount;
    m.Clear(nKeyRandom);
    if f.nKeySize != 32 {
      return false;
    }
    m.nKey, m.nNew, m.nTried := f.nKey, f.nNew, f.nTried;
    if m.nNew > NEW_BUCKET_COUNT * BUCKET_SIZE || m.nTried > TRIED_BUCKET_COUNT * BUCKET_SIZE {
      return false;
    }
    if |f.infos| < f.nNew + f.nTried || |f.buckets| < BucketCount(f) {
      return false;
    }
    ReadBody(m, f);
    DenseMeans(m.State());
    var nLostUnk := Prune(m);
    ok := true;
  }

  // Saving one manager and loading another from the file.
  method Reload(m: Manager, target: Manager, nKeyRandom: nat)
    requires Consistent(m.hs, m.State()) && m != target && m.hs == target.hs
    modifies target
    ensures TablesKnown(m.State()) && Consistent(target.hs, target.State()) && SameUpToIds(m.State(), target.State())
  {
    hide Good, TablesKnown, SameUpToIds, Load, Save;
    var f := Serialize(m);
    RoundTrip(m.hs, m.State());
    NothingPruned(m.hs, Load(m.hs, f));
    var ok := Unserialize(target, f, nKeyRandom);
    assert ok;
  }

  lemma NothingPruned(hs: Hashes, st: AddrState)
    requires Consistent(hs, st)
    ensures NothingToPrune(st)
  {
    forall id | id in st.mapInfo
      ensures HasPlace(st.mapInfo[id])
    {
      assert RefCount(hs, st, {}, id);
    }
  }
}
