/**
 What a group of addresses can take up in the address manager: however many
 addresses it has, announces or succeeds with, it reaches only few buckets.
 */
module AddrManGroups {
  import opened AddrMan
  import opened Collections

  // ------------------------------------------------------------------- counting

  ghost predicate IsValue(f: nat -> nat, n: nat, b: nat) {
    exists i: nat :: i < n && f(i) == b
  }

  lemma ValueAt(f: nat -> nat, n: nat, i: nat)
    requires i < n
    ensures IsValue(f, n, f(i))
  {
  }

  // No more values than arguments.
  lemma {:induction false} ImageSize(image: set<nat>, f: nat -> nat, n: nat)
    requires forall b | b in image :: IsValue(f, n, b)
    ensures |image| <= n
  {
    if n == 0 {
      assert image == {};
    } else {
      forall b | b in image && b != f(n - 1)
        ensures IsValue(f, n - 1, b)
      {
        assert IsValue(f, n, b);
        var i: nat :| i < n && f(i) == b;
      }
      ImageSize(image - {f(n - 1)}, f, n - 1);
    }
  }

  // The first n slots of a bucket.
  ghost function BucketSlots(bucket: nat, n: nat): set<Slot> {
    set pos: nat | pos < n :: Slot(bucket, pos)
  }

  lemma {:induction false} BucketSlotsSize(bucket: nat, n: nat)
    ensures |BucketSlots(bucket, n)| <= n
  {
    if n == 0 {
      assert BucketSlots(bucket, n) == {};
    } else {
      BucketSlotsSize(bucket, n - 1);
      assert BucketSlots(bucket, n) == BucketSlots(bucket, n - 1) + {Slot(bucket, n - 1)};
    }
  }

  // So many buckets have so many slots.
  lemma {:induction false} SlotsBound(slots: set<Slot>, buckets: set<nat>)
    requires forall slot | slot in slots :: slot.bucket in buckets && slot.pos < 64
    ensures |slots| <= 64 * |buckets|
    decreases buckets
  {
    if buckets == {} {
      assert slots == {};
    } else {
      var b :| b in buckets;
      var here := set slot | slot in slots && slot.bucket == b;
      var there := slots - here;
      SlotsBound(there, buckets - {b});
      BucketSlotsSize(b, 64);
      SubsetSize(here, BucketSlots(b, 64)) by {
        forall slot | slot in here
          ensures slot in BucketSlots(b, 64)
        {
          assert slot == Slot(b, slot.pos);
        }
      }
      assert slots == here + there;
    }
  }

  // ------------------------------------------------------------- the tried table

  // The tried slots that hold addresses of a group.
  ghost function TriedOf(hs: Hashes, s: AddrState, group: nat): set<Slot> {
    set slot | slot in s.vvTried && s.vvTried[slot] in s.mapInfo && hs.group(s.mapInfo[s.vvTried[slot]].Ip()) == group
  }

  lemma TriedBucketsSize(hs: Hashes, nKey: nat, group: nat)
    ensures |TriedBuckets(hs, nKey, group)| <= 8
  {
    var f := (i: nat) => hs.triedBucket(nKey, group, i) % 256;
    forall b | b in TriedBuckets(hs, nKey, group)
      ensures IsValue(f, 8, b)
    {
      var i: nat :| i < 8 && b == hs.triedBucket(nKey, group, i) % 256;
      ValueAt(f, 8, i);
    }
    ImageSize(TriedBuckets(hs, nKey, group), f, 8);
  }

  // Tried addresses of a group are in at most eight buckets, so there are at most
  // 512 of them, in every consistent state.
  lemma TriedSpread(hs: Hashes, s: AddrState, group: nat)
    requires Consistent(hs, s)
    ensures |set slot | slot in TriedOf(hs, s, group) :: slot.bucket| <= 8
    ensures |TriedOf(hs, s, group)| <= 512
  {
    hide AddrIndex, RandomIndex, IdsUsed, NewTable, RefCounts, Counts, TriedBuckets;
    var buckets := TriedBuckets(hs, s.nKey, group);
    forall slot | slot in TriedOf(hs, s, group)
      ensures slot.bucket in buckets && slot.pos < 64
    {
      var info := s.mapInfo[s.vvTried[slot]];
      BucketsOfGroups(hs, s.nKey, info.addr.service, info.source);
    }
    TriedBucketsSize(hs, s.nKey, group);
    SubsetSize(set slot | slot in TriedOf(hs, s, group) :: slot.bucket, buckets);
    SlotsBound(TriedOf(hs, s, group), buckets);
  }

  // --------------------------------------------------------------- the new table

  lemma SourceBucketsSize(hs: Hashes, nKey: nat, group: nat)
    ensures |SourceBuckets(hs, nKey, group)| <= 64
  {
    var f := (i: nat) => hs.newBucket(nKey, group, i) % 1_024;
    forall b | b in SourceBuckets(hs, nKey, group)
      ensures IsValue(f, 64, b)
    {
      var i: nat :| i < 64 && b == hs.newBucket(nKey, group, i) % 1_024;
      ValueAt(f, 64, i);
    }
    ImageSize(SourceBuckets(hs, nKey, group), f, 64);
  }

  // All buckets of the given groups.
  ghost function BucketsOfAll(hs: Hashes, nKey: nat, groups: set<nat>): set<nat> {
    set g, b | g in groups && b in SourceBuckets(hs, nKey, g) :: b
  }

  lemma {:induction false} BucketsOfAllSize(hs: Hashes, nKey: nat, groups: set<nat>)
    ensures |BucketsOfAll(hs, nKey, groups)| <= 64 * |groups|
    decreases groups
  {
    hide SourceBuckets;
    if groups == {} {
      assert BucketsOfAll(hs, nKey, groups) == {};
    } else {
      var g :| g in groups;
      BucketsOfAllSize(hs, nKey, groups - {g});
      SourceBucketsSize(hs, nKey, g);
      assert BucketsOfAll(hs, nKey, groups) == BucketsOfAll(hs, nKey, groups - {g}) + SourceBuckets(hs, nKey, g);
    }
  }

  // Whatever only the given groups have announced is in 64 buckets for each of
  // them, 4096 slots, of the 1024 buckets there are.
  lemma NewSpread(hs: Hashes, s: AddrState, groups: set<nat>)
    requires Consistent(hs, s) && Localized(hs, s, groups)
    ensures |set slot | slot in s.vvNew :: slot.bucket| <= 64 * |groups|
    ensures |s.vvNew| <= 4_096 * |groups|
  {
    hide AddrIndex, RandomIndex, IdsUsed, TriedTable, RefCounts, Counts, SourceBuckets;
    var buckets := BucketsOfAll(hs, s.nKey, groups);
    forall slot | slot in s.vvNew
      ensures slot.bucket in buckets && slot.pos < 64
    {
      var g :| g in groups && slot.bucket in SourceBuckets(hs, s.nKey, g);
    }
    BucketsOfAllSize(hs, s.nKey, groups);
    SubsetSize(set slot | slot in s.vvNew :: slot.bucket, buckets);
    SlotsBound(s.vvNew.Keys, buckets);
    assert |s.vvNew| == |s.vvNew.Keys|;
  }

  // While only one group announces, it cannot touch what the others have put
  // outside its own 64 buckets, however often it does.
  lemma {:induction false} OneGroupReach(hs: Hashes, ops: seq<Op>, trace: seq<AddrState>, group: nat, i: nat, j: nat)
    requires i <= j <= |ops| < |trace|
    requires forall k | i <= k < j :: ops[k].DoAdd? && hs.group(ops[k].source) == group
    requires forall k | i <= k < j :: NewReach(hs, trace[k], ops[k], trace[k + 1]) && trace[k + 1].nKey == trace[k].nKey
    ensures trace[j].nKey == trace[i].nKey
    ensures SameOutside(trace[i].vvNew, trace[j].vvNew, SourceBuckets(hs, trace[i].nKey, group))
    ensures |SourceBuckets(hs, trace[i].nKey, group)| <= 64
    decreases j
  {
    hide SourceBuckets;
    SourceBucketsSize(hs, trace[i].nKey, group);
    if i < j {
      OneGroupReach(hs, ops, trace, group, i, j - 1);
      assert NewReach(hs, trace[j - 1], ops[j - 1], trace[j]);
    }
  }
}
