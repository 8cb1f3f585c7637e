/**
 The partial Merkle tree of BIP 37, "Partial Merkle branch format": a proof that
 some transactions of a block are under its Merkle root.

 A node is given by its height and its position at that height.  The hash of
 two nodes is left open; where a proof needs it, it is injective.
 */
module MerkleBlock {
  import opened Bits
  import opened Collections
  import opened Consensus
  import opened Numbers

  ghost predicate Injective<H(!new)>(hash: (H, H) -> H) {
    forall a, b, c, d :: hash(a, b) == hash(c, d) ==> a == c && b == d
  }

  // ------------------------------------------------------------ tree geometry

  // The number of nodes at a height.
  function TreeWidth(n: nat, height: nat): nat {
    (n + Pow2(height) - 1) / Pow2(height)
  }

  // The first transaction under a node.
  function First(height: nat, pos: nat): nat {
    pos * Pow2(height)
  }

  lemma FirstOfChildren(height: nat, pos: nat)
    requires height > 0
    ensures First(height, pos) == First(height - 1, 2 * pos)
    ensures First(height - 1, 2 * pos + 1) == First(height, pos) + Pow2(height - 1)
    ensures First(height, pos + 1) == First(height - 1, 2 * pos + 2) == First(height, pos) + Pow2(height)
  {
    var p := Pow2(height - 1);
    assert pos * (2 * p) == (2 * pos) * p;
    assert (2 * pos + 1) * p == (2 * pos) * p + p;
    assert (2 * pos + 2) * p == (2 * pos) * p + 2 * p;
    assert (pos + 1) * (2 * p) == pos * (2 * p) + 2 * p;
  }

  // A position is inside the width exactly if there is a transaction under it.
  lemma InsideWidth(n: nat, height: nat, pos: nat)
    ensures pos < TreeWidth(n, height) <==> First(height, pos) < n
  {
    var p := Pow2(height);
    var w := TreeWidth(n, height);
    Numbers.QuotientRemainder(n + p - 1, p);
    if pos < w {
      Numbers.ProductMonotone(p, pos + 1, w);
      assert p * (pos + 1) == pos * p + p;
    } else {
      Numbers.ProductMonotone(p, w, pos);
      assert p * pos == pos * p;
    }
  }

  // There is a node at this height and position.
  predicate IsNode(n: nat, height: nat, pos: nat) {
    First(height, pos) < n
  }

  predicate HasRightChild(n: nat, height: nat, pos: nat)
    requires height > 0
  {
    IsNode(n, height - 1, 2 * pos + 1)
  }

  // The height of the root: the least height with a single node.
  function TreeHeight(n: nat): (h: nat)
    ensures n <= Pow2(h) && (h > 0 ==> Pow2(h - 1) < n)
  {
    HeightFrom(n, 0)
  }

  function HeightFrom(n: nat, h: nat): (r: nat)
    requires h > 0 ==> Pow2(h - 1) < n
    ensures n <= Pow2(r) && (r > 0 ==> Pow2(r - 1) < n) && h <= r
    decreases n - Pow2(h)
  {
    if n <= Pow2(h) then h else HeightFrom(n, h + 1)
  }

  // -------------------------------------------------------- hashes and proofs

  // The hash of a node; a node without right child pairs its left child with itself.
  function CalcHash<H>(hash: (H, H) -> H, txids: seq<H>, height: nat, pos: nat): H
    requires IsNode(|txids|, height, pos)
  {
    if height == 0 then txids[pos] else
    FirstOfChildren(height, pos);
    var left := CalcHash(hash, txids, height - 1, 2 * pos);
    var right := if HasRightChild(|txids|, height, pos) then CalcHash(hash, txids, height - 1, 2 * pos + 1) else left;
    hash(left, right)
  }

  function MerkleRoot<H>(hash: (H, H) -> H, txids: seq<H>): H
    requires |txids| > 0
  {
    CalcHash(hash, txids, TreeHeight(|txids|), 0)
  }

  // The hashes of the next level, pair by pair; a last one without partner is
  // paired with itself.
  function NextLevel<H>(hash: (H, H) -> H, level: seq<H>): seq<H> {
    seq((|level| + 1) / 2, i requires 0 <= i < (|level| + 1) / 2 =>
      hash(level[2 * i], if 2 * i + 1 < |level| then level[2 * i + 1] else level[2 * i]))
  }

  function Level<H>(hash: (H, H) -> H, txids: seq<H>, height: nat): seq<H> {
    if height == 0 then txids else NextLevel(hash, Level(hash, txids, height - 1))
  }

  // The hash of a node is the one that halving the list of transaction ids level
  // by level puts at its position.
  lemma {:induction false} HashByLevels<H>(hash: (H, H) -> H, txids: seq<H>, height: nat, pos: nat)
    requires IsNode(|txids|, height, pos)
    ensures pos < |Level(hash, txids, height)| && CalcHash(hash, txids, height, pos) == Level(hash, txids, height)[pos]
    decreases height
  {
    hide NextLevel, First;
    LevelWidth(hash, txids, height, pos);
    if height == 0 {
      FirstIs(pos);
    } else {
      FirstOfChildren(height, pos);
      HashByLevels(hash, txids, height - 1, 2 * pos);
      LevelWidth(hash, txids, height - 1, 2 * pos + 1);
      if HasRightChild(|txids|, height, pos) {
        HashByLevels(hash, txids, height - 1, 2 * pos + 1);
      }
      NextLevelAt(hash, Level(hash, txids, height - 1), pos);
    }
  }

  lemma NextLevelAt<H>(hash: (H, H) -> H, level: seq<H>, i: nat)
    requires 2 * i < |level|
    ensures i < |NextLevel(hash, level)|
    ensures NextLevel(hash, level)[i] == hash(level[2 * i], if 2 * i + 1 < |level| then level[2 * i + 1] else level[2 * i])
  {
  }

  lemma {:induction false} LevelWidth<H>(hash: (H, H) -> H, txids: seq<H>, height: nat, pos: nat)
    ensures pos < |Level(hash, txids, height)| <==> IsNode(|txids|, height, pos)
    decreases height
  {
    hide First, NextLevel;
    if height == 0 {
      FirstIs(pos);
    } else {
      FirstOfChildren(height, pos);
      LevelWidth(hash, txids, height - 1, 2 * pos);
      NextLevelLength(hash, Level(hash, txids, height - 1), pos);
    }
  }

  lemma NextLevelLength<H>(hash: (H, H) -> H, level: seq<H>, pos: nat)
    ensures pos < |NextLevel(hash, level)| <==> 2 * pos < |level|
  {
  }

  // The root is what is left when one hash is left.
  lemma RootByLevels<H>(hash: (H, H) -> H, txids: seq<H>)
    requires |txids| > 0
    ensures Level(hash, txids, TreeHeight(|txids|)) == [MerkleRoot(hash, txids)]
    ensures forall h: nat | h < TreeHeight(|txids|) :: |Level(hash, txids, h)| > 1
  {
    var height := TreeHeight(|txids|);
    HashByLevels(hash, txids, height, 0);
    LevelWidth(hash, txids, height, 1);
    forall h: nat | h < height
      ensures |Level(hash, txids, h)| > 1
    {
      Pow2Monotone(h, height - 1);
      LevelWidth(hash, txids, h, 1);
    }
  }

  // Some transaction under the node is matched.
  predicate ParentOfMatch(vMatch: seq<bool>, height: nat, pos: nat) {
    exists p :: First(height, pos) <= p < First(height, pos + 1) && p < |vMatch| && vMatch[p]
  }

  // The flag bits and the hashes that the builder stores for a node.
  function BuiltBits(vMatch: seq<bool>, height: nat, pos: nat): seq<bool> {
    var parent := ParentOfMatch(vMatch, height, pos);
    if height == 0 || !parent then [parent] else
    [parent] + BuiltBits(vMatch, height - 1, 2 * pos) +
      if HasRightChild(|vMatch|, height, pos) then BuiltBits(vMatch, height - 1, 2 * pos + 1) else []
  }

  function BuiltHashes<H>(hash: (H, H) -> H, txids: seq<H>, vMatch: seq<bool>, height: nat, pos: nat): seq<H>
    requires |vMatch| == |txids| && IsNode(|txids|, height, pos)
  {
    if height == 0 || !ParentOfMatch(vMatch, height, pos) then [CalcHash(hash, txids, height, pos)] else
    FirstOfChildren(height, pos);
    BuiltHashes(hash, txids, vMatch, height - 1, 2 * pos) +
      if HasRightChild(|txids|, height, pos) then BuiltHashes(hash, txids, vMatch, height - 1, 2 * pos + 1) else []
  }

  /** What reading one subtree of a proof yields. */
  datatype Extracted<H> = Extracted(root: H, nBitsUsed: nat, nHashUsed: nat, matches: seq<H>, indices: seq<nat>, bad: bool)

  /** A proof as received: nothing is known about it. */
  datatype Proof<H> = Proof(nTransactions: nat, vBits: seq<bool>, vHash: seq<H>)

  // Reads a subtree, consuming bits and hashes in depth-first order.
  function Extract<H(==)>(hash: (H, H) -> H, null_: H, proof: Proof<H>, height: nat, pos: nat, nBitsUsed: nat, nHashUsed: nat)
    : (e: Extracted<H>)
    ensures |e.matches| == |e.indices|
    decreases height, 1
  {
    if nBitsUsed >= |proof.vBits| then Extracted(null_, nBitsUsed, nHashUsed, [], [], true)
    else
      var parent := proof.vBits[nBitsUsed];
      if height == 0 || !parent then
        if nHashUsed >= |proof.vHash| then Extracted(null_, nBitsUsed + 1, nHashUsed, [], [], true)
        else
          var h := proof.vHash[nHashUsed];
          if height == 0 && parent then Extracted(h, nBitsUsed + 1, nHashUsed + 1, [h], [pos], false)
          else Extracted(h, nBitsUsed + 1, nHashUsed + 1, [], [], false)
      else
        ReadChildren(hash, null_, proof, height, pos, nBitsUsed + 1, nHashUsed)
  }

  function ReadChildren<H(==)>(hash: (H, H) -> H, null_: H, proof: Proof<H>, height: nat, pos: nat, nBitsUsed: nat, nHashUsed: nat)
    : (e: Extracted<H>)
    requires height > 0
    ensures |e.matches| == |e.indices|
    decreases height, 0
  {
    var l := Extract(hash, null_, proof, height - 1, 2 * pos, nBitsUsed, nHashUsed);
    if HasRightChild(proof.nTransactions, height, pos) then
      var r := Extract(hash, null_, proof, height - 1, 2 * pos + 1, l.nBitsUsed, l.nHashUsed);
      Extracted(hash(l.root, r.root), r.nBitsUsed, r.nHashUsed, l.matches + r.matches, l.indices + r.indices,
                l.bad || r.bad || l.root == r.root)
    else
      l.(root := hash(l.root, l.root))
  }

  // -------------------------------------------------------------- soundness

  // Whatever the proof says: if a subtree hashes to the true node, then every
  // transaction it shows is the one at the shown position.  If it is read without
  // failure, that does not even depend on the number of transactions it claims:
  // where it claims a right child that the tree does not have, both children are
  // the same.
  lemma {:induction false} ExtractSound<H(!new)>(hash: (H, H) -> H, null_: H, txids: seq<H>, proof: Proof<H>,
                                                 height: nat, pos: nat, nBitsUsed: nat, nHashUsed: nat)
    requires Injective(hash) && IsNode(|txids|, height, pos)
    requires proof.nTransactions == |txids| || !Extract(hash, null_, proof, height, pos, nBitsUsed, nHashUsed).bad
    requires Extract(hash, null_, proof, height, pos, nBitsUsed, nHashUsed).root == CalcHash(hash, txids, height, pos)
    ensures var e := Extract(hash, null_, proof, height, pos, nBitsUsed, nHashUsed);
            forall k | 0 <= k < |e.matches| :: e.indices[k] < |txids| && txids[e.indices[k]] == e.matches[k]
    decreases height
  {
    if nBitsUsed < |proof.vBits| && height > 0 && proof.vBits[nBitsUsed] {
      FirstOfChildren(height, pos);
      var l := Extract(hash, null_, proof, height - 1, 2 * pos, nBitsUsed + 1, nHashUsed);
      ExtractSound(hash, null_, txids, proof, height - 1, 2 * pos, nBitsUsed + 1, nHashUsed);
      if HasRightChild(proof.nTransactions, height, pos) {
        ExtractSound(hash, null_, txids, proof, height - 1, 2 * pos + 1, l.nBitsUsed, l.nHashUsed);
      }
    }
  }

  // Positions in ascending order, inside [lo, hi) and below n.
  predicate Ascending(s: seq<nat>, n: nat, lo: nat, hi: nat) {
    && (forall k | 0 <= k < |s| :: lo <= s[k] < hi && s[k] < n)
    && (forall j, k | 0 <= j < k < |s| :: s[j] < s[k])
  }

  lemma AscendingConcat(a: seq<nat>, b: seq<nat>, n: nat, lo: nat, mid: nat, hi: nat)
    requires Ascending(a, n, lo, mid) && Ascending(b, n, mid, hi) && lo <= mid <= hi
    ensures Ascending(a + b, n, lo, hi) && Ascending(a, n, lo, hi)
  {
  }

  // Whatever the proof says, the shown positions ascend and are under the node.
  lemma {:induction false} ExtractAscends<H(!new)>(hash: (H, H) -> H, null_: H, proof: Proof<H>,
                                                   height: nat, pos: nat, nBitsUsed: nat, nHashUsed: nat)
    requires IsNode(proof.nTransactions, height, pos)
    ensures Ascending(Extract(hash, null_, proof, height, pos, nBitsUsed, nHashUsed).indices,
                      proof.nTransactions, First(height, pos), First(height, pos + 1))
    decreases height
  {
    if nBitsUsed < |proof.vBits| && height > 0 && proof.vBits[nBitsUsed] {
      ExtractAscendsInner(hash, null_, proof, height, pos, nBitsUsed, nHashUsed);
    }
  }

  lemma {:induction false} ExtractAscendsInner<H(!new)>(hash: (H, H) -> H, null_: H, proof: Proof<H>,
                                                        height: nat, pos: nat, nBitsUsed: nat, nHashUsed: nat)
    requires IsNode(proof.nTransactions, height, pos)
    requires height > 0 && nBitsUsed < |proof.vBits| && proof.vBits[nBitsUsed]
    ensures Ascending(Extract(hash, null_, proof, height, pos, nBitsUsed, nHashUsed).indices,
                      proof.nTransactions, First(height, pos), First(height, pos + 1))
    decreases height, 0
  {
    hide First, Ascending;
    FirstOfChildren(height, pos);
    SubtreesAscend(height, pos);
    var l := Extract(hash, null_, proof, height - 1, 2 * pos, nBitsUsed + 1, nHashUsed);
    ExtractAscends(hash, null_, proof, height - 1, 2 * pos, nBitsUsed + 1, nHashUsed);
    var right := [];
    if HasRightChild(proof.nTransactions, height, pos) {
      right := Extract(hash, null_, proof, height - 1, 2 * pos + 1, l.nBitsUsed, l.nHashUsed).indices;
      ExtractAscends(hash, null_, proof, height - 1, 2 * pos + 1, l.nBitsUsed, l.nHashUsed);
    } else {
      EmptyAscends(proof.nTransactions, First(height - 1, 2 * pos + 1), First(height, pos + 1));
    }
    AscendingConcat(l.indices, right, proof.nTransactions, First(height, pos), First(height - 1, 2 * pos + 1), First(height, pos + 1));
  }

  lemma EmptyAscends(n: nat, lo: nat, hi: nat)
    ensures Ascending([], n, lo, hi)
  {
  }

  // ------------------------------------------------------------- completeness

  // Equal hashes of equally high nodes have equal first transactions.
  lemma {:induction false} SameHashSameFirst<H(!new)>(hash: (H, H) -> H, txids: seq<H>, height: nat, p: nat, q: nat)
    requires Injective(hash) && IsNode(|txids|, height, p) && IsNode(|txids|, height, q)
    requires CalcHash(hash, txids, height, p) == CalcHash(hash, txids, height, q)
    ensures txids[First(height, p)] == txids[First(height, q)]
  {
    if height > 0 {
      FirstOfChildren(height, p);
      FirstOfChildren(height, q);
      SameHashSameFirst(hash, txids, height - 1, 2 * p, 2 * q);
    }
  }

  // The positions in [lo, hi) that are matched, in order.
  function MatchedIn(vMatch: seq<bool>, lo: nat, hi: nat): (r: seq<nat>)
    ensures forall k | 0 <= k < |r| :: lo <= r[k] < hi && r[k] < |vMatch|
    decreases hi - lo
  {
    if lo >= hi || lo >= |vMatch| then [] else
    (if vMatch[lo] then [lo] else []) + MatchedIn(vMatch, lo + 1, hi)
  }

  lemma {:induction false} MatchedSplit(vMatch: seq<bool>, lo: nat, mid: nat, hi: nat)
    requires lo <= mid <= hi
    ensures MatchedIn(vMatch, lo, hi) == MatchedIn(vMatch, lo, mid) + MatchedIn(vMatch, mid, hi)
    decreases mid - lo
  {
    if lo < mid {
      MatchedSplit(vMatch, lo + 1, mid, hi);
    }
  }

  lemma {:induction false} MatchedNone(vMatch: seq<bool>, lo: nat, hi: nat)
    requires forall p | lo <= p < hi && p < |vMatch| :: !vMatch[p]
    ensures MatchedIn(vMatch, lo, hi) == []
    decreases hi - lo
  {
    if lo < hi {
      MatchedNone(vMatch, lo + 1, hi);
    }
  }

  function Pick<T>(s: seq<T>, indices: seq<nat>): seq<T>
    requires forall k | 0 <= k < |indices| :: indices[k] < |s|
  {
    seq(|indices|, k requires 0 <= k < |indices| => s[indices[k]])
  }

  lemma PickConcat<T>(s: seq<T>, a: seq<nat>, b: seq<nat>)
    requires forall k | 0 <= k < |a| :: a[k] < |s|
    requires forall k | 0 <= k < |b| :: b[k] < |s|
    ensures Pick(s, a + b) == Pick(s, a) + Pick(s, b)
  {
  }

  // `part` stands in `whole` from position `at`.
  predicate StandsAt<T(==)>(part: seq<T>, whole: seq<T>, at: nat) {
    at + |part| <= |whole| && whole[at..at + |part|] == part
  }

  lemma StandsSplit<T>(a: seq<T>, b: seq<T>, whole: seq<T>, at: nat)
    requires StandsAt(a + b, whole, at)
    ensures StandsAt(a, whole, at) && StandsAt(b, whole, at + |a|)
  {
    assert whole[at..at + |a|] == (a + b)[..|a|] == a;
    assert whole[at + |a|..at + |a| + |b|] == (a + b)[|a|..] == b;
  }

  ghost predicate ReadsBack<H>(hash: (H, H) -> H, txids: seq<H>, vMatch: seq<bool>, height: nat, pos: nat,
                               nBitsUsed: nat, nHashUsed: nat, e: Extracted<H>)
    requires |vMatch| == |txids| && IsNode(|txids|, height, pos)
  {
    && !e.bad && e.root == CalcHash(hash, txids, height, pos)
    && e.nBitsUsed == nBitsUsed + |BuiltBits(vMatch, height, pos)|
    && e.nHashUsed == nHashUsed + |BuiltHashes(hash, txids, vMatch, height, pos)|
    && e.indices == MatchedIn(vMatch, First(height, pos), First(height, pos + 1))
    && e.matches == Pick(txids, e.indices)
  }

  // Reading a subtree where the builder wrote it gives back exactly its hash,
  // its matched transactions and their positions.
  lemma {:induction false} ExtractComplete<H(!new)>(hash: (H, H) -> H, null_: H, txids: seq<H>, vMatch: seq<bool>,
                                                    proof: Proof<H>, height: nat, pos: nat, nBitsUsed: nat, nHashUsed: nat)
    requires Injective(hash) && Distinct(txids) && |vMatch| == |txids| == proof.nTransactions
    requires IsNode(|txids|, height, pos)
    requires StandsAt(BuiltBits(vMatch, height, pos), proof.vBits, nBitsUsed)
    requires StandsAt(BuiltHashes(hash, txids, vMatch, height, pos), proof.vHash, nHashUsed)
    ensures ReadsBack(hash, txids, vMatch, height, pos, nBitsUsed, nHashUsed,
                      Extract(hash, null_, proof, height, pos, nBitsUsed, nHashUsed))
    decreases height
  {
    var bits, hashes := BuiltBits(vMatch, height, pos), BuiltHashes(hash, txids, vMatch, height, pos);
    var parent := ParentOfMatch(vMatch, height, pos);
    assert bits[0] == parent;
    assert proof.vBits[nBitsUsed] == parent by {
      assert proof.vBits[nBitsUsed..nBitsUsed + |bits|][0] == bits[0];
    }
    if height == 0 || !parent {
      assert proof.vHash[nHashUsed] == hashes[0] by {
        assert proof.vHash[nHashUsed..nHashUsed + |hashes|][0] == hashes[0];
      }
      if !parent {
        MatchedNone(vMatch, First(height, pos), First(height, pos + 1));
      } else {
        assert MatchedIn(vMatch, pos, pos + 1) == [pos];
      }
    } else if HasRightChild(|txids|, height, pos) {
      CompleteWithRight(hash, null_, txids, vMatch, proof, height, pos, nBitsUsed, nHashUsed);
    } else {
      CompleteWithoutRight(hash, null_, txids, vMatch, proof, height, pos, nBitsUsed, nHashUsed);
    }
  }

  // The children of a node that is read back are different unless they are one.
  lemma ChildrenDiffer<H(!new)>(hash: (H, H) -> H, txids: seq<H>, height: nat, pos: nat)
    requires Injective(hash) && Distinct(txids) && height > 0
    requires IsNode(|txids|, height, pos) && HasRightChild(|txids|, height, pos)
    ensures IsNode(|txids|, height - 1, 2 * pos)
    ensures CalcHash(hash, txids, height - 1, 2 * pos) != CalcHash(hash, txids, height - 1, 2 * pos + 1)
  {
    FirstOfChildren(height, pos);
    if CalcHash(hash, txids, height - 1, 2 * pos) == CalcHash(hash, txids, height - 1, 2 * pos + 1) {
      SameHashSameFirst(hash, txids, height - 1, 2 * pos, 2 * pos + 1);
    }
  }

  lemma ChildrenStand<H>(hash: (H, H) -> H, txids: seq<H>, vMatch: seq<bool>,
                         proof: Proof<H>, height: nat, pos: nat, nBitsUsed: nat, nHashUsed: nat)
    requires |vMatch| == |txids| && height > 0 && IsNode(|txids|, height, pos)
    requires ParentOfMatch(vMatch, height, pos) && HasRightChild(|txids|, height, pos)
    requires StandsAt(BuiltBits(vMatch, height, pos), proof.vBits, nBitsUsed)
    requires StandsAt(BuiltHashes(hash, txids, vMatch, height, pos), proof.vHash, nHashUsed)
    ensures IsNode(|txids|, height - 1, 2 * pos)
    ensures var lb, lh := BuiltBits(vMatch, height - 1, 2 * pos), BuiltHashes(hash, txids, vMatch, height - 1, 2 * pos);
            && StandsAt(lb, proof.vBits, nBitsUsed + 1) && StandsAt(lh, proof.vHash, nHashUsed)
            && StandsAt(BuiltBits(vMatch, height - 1, 2 * pos + 1), proof.vBits, nBitsUsed + 1 + |lb|)
            && StandsAt(BuiltHashes(hash, txids, vMatch, height - 1, 2 * pos + 1), proof.vHash, nHashUsed + |lh|)
  {
    hide StandsAt, ParentOfMatch;
    FirstOfChildren(height, pos);
    var lb, lh := BuiltBits(vMatch, height - 1, 2 * pos), BuiltHashes(hash, txids, vMatch, height - 1, 2 * pos);
    var rb, rh := BuiltBits(vMatch, height - 1, 2 * pos + 1), BuiltHashes(hash, txids, vMatch, height - 1, 2 * pos + 1);
    StandsSplit([true] + lb, rb, proof.vBits, nBitsUsed);
    StandsSplit([true], lb, proof.vBits, nBitsUsed);
    StandsSplit(lh, rh, proof.vHash, nHashUsed);
  }

  // Two children that were read back make a node that is read back.
  lemma JoinReadsBack<H(!new)>(hash: (H, H) -> H, txids: seq<H>, vMatch: seq<bool>, height: nat, pos: nat,
                               nBitsUsed: nat, nHashUsed: nat, l: Extracted<H>, r: Extracted<H>)
    requires Injective(hash) && Distinct(txids) && |vMatch| == |txids| && height > 0
    requires IsNode(|txids|, height, pos) && IsNode(|txids|, height - 1, 2 * pos)
    requires ParentOfMatch(vMatch, height, pos) && HasRightChild(|txids|, height, pos)
    requires ReadsBack(hash, txids, vMatch, height - 1, 2 * pos, nBitsUsed + 1, nHashUsed, l)
    requires ReadsBack(hash, txids, vMatch, height - 1, 2 * pos + 1, l.nBitsUsed, l.nHashUsed, r)
    ensures l.root != r.root
    ensures ReadsBack(hash, txids, vMatch, height, pos, nBitsUsed, nHashUsed,
                      Extracted(hash(l.root, r.root), r.nBitsUsed, r.nHashUsed, l.matches + r.matches,
                                l.indices + r.indices, false))
  {
    hide First, Injective, Distinct, ParentOfMatch, Pick;
    FirstOfChildren(height, pos);
    SubtreesAscend(height, pos);
    MatchedSplit(vMatch, First(height, pos), First(height - 1, 2 * pos + 1), First(height, pos + 1));
    ChildrenDiffer(hash, txids, height, pos);
    PickConcat(txids, l.indices, r.indices);
  }

  lemma {:induction false} CompleteWithRight<H(!new)>(hash: (H, H) -> H, null_: H, txids: seq<H>, vMatch: seq<bool>,
                                  proof: Proof<H>, height: nat, pos: nat, nBitsUsed: nat, nHashUsed: nat)
    requires Injective(hash) && Distinct(txids) && |vMatch| == |txids| == proof.nTransactions
    requires height > 0 && IsNode(|txids|, height, pos) && ParentOfMatch(vMatch, height, pos)
    requires StandsAt(BuiltBits(vMatch, height, pos), proof.vBits, nBitsUsed) && proof.vBits[nBitsUsed]
    requires StandsAt(BuiltHashes(hash, txids, vMatch, height, pos), proof.vHash, nHashUsed)
    requires HasRightChild(|txids|, height, pos)
    ensures ReadsBack(hash, txids, vMatch, height, pos, nBitsUsed, nHashUsed,
                      Extract(hash, null_, proof, height, pos, nBitsUsed, nHashUsed))
    decreases height, 0
  {
    hide First, StandsAt, Injective, Distinct, ParentOfMatch, BuiltBits, BuiltHashes, CalcHash, MatchedIn, Pick;
    ChildrenStand(hash, txids, vMatch, proof, height, pos, nBitsUsed, nHashUsed);
    var l := Extract(hash, null_, proof, height - 1, 2 * pos, nBitsUsed + 1, nHashUsed);
    var r := Extract(hash, null_, proof, height - 1, 2 * pos + 1, l.nBitsUsed, l.nHashUsed);
    ExtractComplete(hash, null_, txids, vMatch, proof, height - 1, 2 * pos, nBitsUsed + 1, nHashUsed);
    ExtractComplete(hash, null_, txids, vMatch, proof, height - 1, 2 * pos + 1, l.nBitsUsed, l.nHashUsed);
    JoinReadsBack(hash, txids, vMatch, height, pos, nBitsUsed, nHashUsed, l, r);
  }

  lemma OnlyChildStands<H>(hash: (H, H) -> H, txids: seq<H>, vMatch: seq<bool>,
                           proof: Proof<H>, height: nat, pos: nat, nBitsUsed: nat, nHashUsed: nat)
    requires |vMatch| == |txids| && height > 0 && IsNode(|txids|, height, pos)
    requires ParentOfMatch(vMatch, height, pos) && !HasRightChild(|txids|, height, pos)
    requires StandsAt(BuiltBits(vMatch, height, pos), proof.vBits, nBitsUsed)
    requires StandsAt(BuiltHashes(hash, txids, vMatch, height, pos), proof.vHash, nHashUsed)
    ensures IsNode(|txids|, height - 1, 2 * pos)
    ensures StandsAt(BuiltBits(vMatch, height - 1, 2 * pos), proof.vBits, nBitsUsed + 1)
    ensures StandsAt(BuiltHashes(hash, txids, vMatch, height - 1, 2 * pos), proof.vHash, nHashUsed)
  {
    hide StandsAt, ParentOfMatch;
    FirstOfChildren(height, pos);
    var lb, lh := BuiltBits(vMatch, height - 1, 2 * pos), BuiltHashes(hash, txids, vMatch, height - 1, 2 * pos);
    assert [true] + lb + [] == [true] + lb && lh + [] == lh;
    StandsSplit([true], lb, proof.vBits, nBitsUsed);
  }

  // An only child that was read back makes a node that is read back.
  lemma LiftReadsBack<H(!new)>(hash: (H, H) -> H, txids: seq<H>, vMatch: seq<bool>, height: nat, pos: nat,
                               nBitsUsed: nat, nHashUsed: nat, l: Extracted<H>)
    requires |vMatch| == |txids| && height > 0
    requires IsNode(|txids|, height, pos) && IsNode(|txids|, height - 1, 2 * pos)
    requires ParentOfMatch(vMatch, height, pos) && !HasRightChild(|txids|, height, pos)
    requires ReadsBack(hash, txids, vMatch, height - 1, 2 * pos, nBitsUsed + 1, nHashUsed, l)
    ensures ReadsBack(hash, txids, vMatch, height, pos, nBitsUsed, nHashUsed, l.(root := hash(l.root, l.root)))
  {
    hide First, ParentOfMatch, Pick, MatchedIn;
    FirstOfChildren(height, pos);
    SubtreesAscend(height, pos);
    MatchedSplit(vMatch, First(height, pos), First(height - 1, 2 * pos + 1), First(height, pos + 1));
    MatchedBeyond(vMatch, First(height - 1, 2 * pos + 1), First(height, pos + 1));
  }

  lemma {:induction false} CompleteWithoutRight<H(!new)>(hash: (H, H) -> H, null_: H, txids: seq<H>, vMatch: seq<bool>,
                                  proof: Proof<H>, height: nat, pos: nat, nBitsUsed: nat, nHashUsed: nat)
    requires Injective(hash) && Distinct(txids) && |vMatch| == |txids| == proof.nTransactions
    requires height > 0 && IsNode(|txids|, height, pos) && ParentOfMatch(vMatch, height, pos)
    requires StandsAt(BuiltBits(vMatch, height, pos), proof.vBits, nBitsUsed) && proof.vBits[nBitsUsed]
    requires StandsAt(BuiltHashes(hash, txids, vMatch, height, pos), proof.vHash, nHashUsed)
    requires !HasRightChild(|txids|, height, pos)
    ensures ReadsBack(hash, txids, vMatch, height, pos, nBitsUsed, nHashUsed,
                      Extract(hash, null_, proof, height, pos, nBitsUsed, nHashUsed))
    decreases height, 0
  {
    hide First, StandsAt, Injective, Distinct, ParentOfMatch, BuiltBits, BuiltHashes, CalcHash, MatchedIn, Pick;
    OnlyChildStands(hash, txids, vMatch, proof, height, pos, nBitsUsed, nHashUsed);
    var l := Extract(hash, null_, proof, height - 1, 2 * pos, nBitsUsed + 1, nHashUsed);
    ExtractComplete(hash, null_, txids, vMatch, proof, height - 1, 2 * pos, nBitsUsed + 1, nHashUsed);
    LiftReadsBack(hash, txids, vMatch, height, pos, nBitsUsed, nHashUsed, l);
  }

  lemma SubtreesAscend(height: nat, pos: nat)
    requires height > 0
    ensures First(height, pos) <= First(height - 1, 2 * pos + 1) <= First(height, pos + 1)
  {
    FirstOfChildren(height, pos);
  }

  lemma MatchedBeyond(vMatch: seq<bool>, lo: nat, hi: nat)
    requires |vMatch| <= lo
    ensures MatchedIn(vMatch, lo, hi) == []
  {
  }

  // ------------------------------------------------------------- size bounds

  // The explored nodes that have no right child.
  function OneChildNodes(vMatch: seq<bool>, height: nat, pos: nat): nat {
    if height == 0 || !ParentOfMatch(vMatch, height, pos) then 0
    else if HasRightChild(|vMatch|, height, pos) then
      OneChildNodes(vMatch, height - 1, 2 * pos) + OneChildNodes(vMatch, height - 1, 2 * pos + 1)
    else 1 + OneChildNodes(vMatch, height - 1, 2 * pos)
  }

  // The nodes whose hashes are stored: leaves, and nodes without a match.
  function StoredNodes(vMatch: seq<bool>, height: nat, pos: nat): nat {
    if height == 0 || !ParentOfMatch(vMatch, height, pos) then 1
    else if HasRightChild(|vMatch|, height, pos) then
      StoredNodes(vMatch, height - 1, 2 * pos) + StoredNodes(vMatch, height - 1, 2 * pos + 1)
    else StoredNodes(vMatch, height - 1, 2 * pos)
  }

  lemma {:induction false} HashesExact<H>(hash: (H, H) -> H, txids: seq<H>, vMatch: seq<bool>, height: nat, pos: nat)
    requires |vMatch| == |txids| && IsNode(|txids|, height, pos)
    ensures |BuiltHashes(hash, txids, vMatch, height, pos)| == StoredNodes(vMatch, height, pos)
  {
    if height > 0 && ParentOfMatch(vMatch, height, pos) {
      FirstOfChildren(height, pos);
      HashesExact(hash, txids, vMatch, height - 1, 2 * pos);
      if HasRightChild(|txids|, height, pos) {
        HashesExact(hash, txids, vMatch, height - 1, 2 * pos + 1);
      }
    }
  }

  lemma {:induction false} BitsExact<H>(hash: (H, H) -> H, txids: seq<H>, vMatch: seq<bool>, height: nat, pos: nat)
    requires |vMatch| == |txids| && IsNode(|txids|, height, pos)
    ensures |BuiltBits(vMatch, height, pos)| + 1 ==
            2 * |BuiltHashes(hash, txids, vMatch, height, pos)| + OneChildNodes(vMatch, height, pos)
  {
    if height > 0 && ParentOfMatch(vMatch, height, pos) {
      FirstOfChildren(height, pos);
      BitsExact(hash, txids, vMatch, height - 1, 2 * pos);
      if HasRightChild(|txids|, height, pos) {
        BitsExact(hash, txids, vMatch, height - 1, 2 * pos + 1);
      }
    }
  }

  // A subtree that ends before the last transaction is complete.
  lemma {:induction false} FullHasNoOneChild(vMatch: seq<bool>, height: nat, pos: nat)
    requires First(height, pos + 1) <= |vMatch|
    ensures OneChildNodes(vMatch, height, pos) == 0
  {
    if height > 0 && ParentOfMatch(vMatch, height, pos) {
      FirstOfChildren(height, pos);
      FullHasNoOneChild(vMatch, height - 1, 2 * pos);
      FullHasNoOneChild(vMatch, height - 1, 2 * pos + 1);
    }
  }

  lemma {:induction false} OneChildAtMostHeight(vMatch: seq<bool>, height: nat, pos: nat)
    ensures OneChildNodes(vMatch, height, pos) <= height
  {
    if height > 0 && ParentOfMatch(vMatch, height, pos) {
      FirstOfChildren(height, pos);
      if HasRightChild(|vMatch|, height, pos) {
        FullHasNoOneChild(vMatch, height - 1, 2 * pos);
        OneChildAtMostHeight(vMatch, height - 1, 2 * pos + 1);
      } else {
        OneChildAtMostHeight(vMatch, height - 1, 2 * pos);
      }
    }
  }

  // At most one hash per transaction under the node.
  lemma {:induction false} HashPerTransaction<H>(hash: (H, H) -> H, txids: seq<H>, vMatch: seq<bool>, height: nat, pos: nat)
    requires |vMatch| == |txids| && IsNode(|txids|, height, pos)
    ensures 1 <= |BuiltHashes(hash, txids, vMatch, height, pos)| <=
            Min(First(height, pos + 1), |txids|) - First(height, pos)
  {
    FirstAscends(height, pos);
    if height > 0 && ParentOfMatch(vMatch, height, pos) {
      FirstOfChildren(height, pos);
      HashPerTransaction(hash, txids, vMatch, height - 1, 2 * pos);
      if HasRightChild(|txids|, height, pos) {
        HashPerTransaction(hash, txids, vMatch, height - 1, 2 * pos + 1);
      }
    }
  }

  // At most one hash per level and matched transaction, and one more.
  lemma {:induction false} HashPerMatch<H>(hash: (H, H) -> H, txids: seq<H>, vMatch: seq<bool>, height: nat, pos: nat)
    requires |vMatch| == |txids| && IsNode(|txids|, height, pos)
    ensures |BuiltHashes(hash, txids, vMatch, height, pos)| <=
            1 + |MatchedIn(vMatch, First(height, pos), First(height, pos + 1))| * height
  {
    hide First, MatchedIn;
    if height > 0 && ParentOfMatch(vMatch, height, pos) {
      var mid := First(height - 1, 2 * pos + 1);
      FirstOfChildren(height, pos);
      SubtreesAscend(height, pos);
      MatchedSome(vMatch, First(height, pos), First(height, pos + 1));
      MatchedSplit(vMatch, First(height, pos), mid, First(height, pos + 1));
      var ml, mr := |MatchedIn(vMatch, First(height, pos), mid)|, |MatchedIn(vMatch, mid, First(height, pos + 1))|;
      LevelProduct(ml, mr, height);
      HashPerMatch(hash, txids, vMatch, height - 1, 2 * pos);
      if HasRightChild(|txids|, height, pos) {
        HashPerMatch(hash, txids, vMatch, height - 1, 2 * pos + 1);
      }
    }
  }

  lemma LevelProduct(ml: nat, mr: nat, height: nat)
    requires height > 0
    ensures (ml + mr) * height == ml * (height - 1) + mr * (height - 1) + ml + mr
    ensures ml * (height - 1) >= 0 && mr * (height - 1) >= 0
  {
  }

  lemma FirstAscends(height: nat, pos: nat)
    ensures First(height, pos + 1) == First(height, pos) + Pow2(height)
  {
  }

  lemma MatchedSome(vMatch: seq<bool>, lo: nat, hi: nat)
    requires exists p :: lo <= p < hi && p < |vMatch| && vMatch[p]
    ensures MatchedIn(vMatch, lo, hi) != []
    decreases hi - lo
  {
    if lo < |vMatch| && !vMatch[lo] {
      MatchedSome(vMatch, lo + 1, hi);
    }
  }

  // A node whose only child is its left one and that has a match below it.
  predicate LoneParent(vMatch: seq<bool>, height: nat, pos: nat) {
    && height > 0 && IsNode(|vMatch|, height, pos) && !HasRightChild(|vMatch|, height, pos)
    && ParentOfMatch(vMatch, height, pos)
  }

  ghost predicate Under(g: nat, q: nat, height: nat, pos: nat) {
    g <= height && First(height, pos) <= First(g, q) && First(g, q + 1) <= First(height, pos + 1)
  }

  // Counted one-child nodes exist, ...
  lemma {:induction false} CountedLoneParent(vMatch: seq<bool>, height: nat, pos: nat) returns (g: nat, q: nat)
    requires IsNode(|vMatch|, height, pos) && OneChildNodes(vMatch, height, pos) > 0
    ensures LoneParent(vMatch, g, q) && Under(g, q, height, pos)
  {
    FirstOfChildren(height, pos);
    SubtreesAscend(height, pos);
    if !HasRightChild(|vMatch|, height, pos) {
      g, q := height, pos;
    } else if OneChildNodes(vMatch, height - 1, 2 * pos) > 0 {
      g, q := CountedLoneParent(vMatch, height - 1, 2 * pos);
    } else {
      g, q := CountedLoneParent(vMatch, height - 1, 2 * pos + 1);
    }
  }

  // Node boundaries of higher levels are node boundaries of lower ones.
  lemma Aligned(g: nat, height: nat, pos: nat)
    requires g <= height
    ensures First(height, pos) == First(g, pos * Pow2(height - g))
  {
    Pow2Add(height - g, g);
    assert pos * (Pow2(height - g) * Pow2(g)) == (pos * Pow2(height - g)) * Pow2(g);
  }

  lemma OrderedByFirst(g: nat, a: nat, b: nat)
    requires First(g, a) < First(g, b)
    ensures a < b && First(g, a + 1) <= First(g, b)
  {
    if b <= a {
      Numbers.ProductMonotone(Pow2(g), b, a);
    } else {
      Numbers.ProductMonotone(Pow2(g), a + 1, b);
    }
  }

  // ... and existing ones are counted.
  lemma {:induction false} LoneParentCounted(vMatch: seq<bool>, height: nat, pos: nat, g: nat, q: nat)
    requires IsNode(|vMatch|, height, pos) && LoneParent(vMatch, g, q) && Under(g, q, height, pos)
    ensures OneChildNodes(vMatch, height, pos) > 0
    decreases height
  {
    hide First;
    MatchBelow(vMatch, height, pos, g, q);
    if g == height {
      SameNode(height, pos, q);
    } else {
      FirstOfChildren(height, pos);
      Aligned(g, height - 1, 2 * pos + 1);
      var mid := First(height - 1, 2 * pos + 1);
      if First(g, q) < mid {
        OrderedByFirst(g, q, (2 * pos + 1) * Pow2(height - 1 - g));
        LoneParentCounted(vMatch, height - 1, 2 * pos, g, q);
      } else {
        LoneParentCounted(vMatch, height - 1, 2 * pos + 1, g, q);
      }
    }
  }

  lemma MatchBelow(vMatch: seq<bool>, height: nat, pos: nat, g: nat, q: nat)
    requires ParentOfMatch(vMatch, g, q) && Under(g, q, height, pos)
    ensures ParentOfMatch(vMatch, height, pos)
  {
    hide First;
    var p :| First(g, q) <= p < First(g, q + 1) && p < |vMatch| && vMatch[p];
  }

  lemma SameNode(height: nat, pos: nat, q: nat)
    requires Under(height, q, height, pos)
    ensures q == pos
  {
    if q < pos {
      Numbers.ProductMonotone(Pow2(height), q + 1, pos);
    } else if pos < q {
      Numbers.ProductMonotone(Pow2(height), pos + 1, q);
    }
  }

  // The documented limit of 2N - 1 flag bits holds exactly when no match lies
  // under a node without right child; 2N - 1 + height always holds.
  lemma BitsBound<H>(hash: (H, H) -> H, txids: seq<H>, vMatch: seq<bool>)
    requires |vMatch| == |txids| > 0
    ensures var h := TreeHeight(|txids|);
            var n := |BuiltHashes(hash, txids, vMatch, h, 0)|;
            && |BuiltBits(vMatch, h, 0)| <= 2 * n - 1 + h
            && (|BuiltBits(vMatch, h, 0)| <= 2 * n - 1 <==> forall g: nat, q: nat :: g <= h ==> !LoneParent(vMatch, g, q))
  {
    var h := TreeHeight(|txids|);
    BitsExact(hash, txids, vMatch, h, 0);
    OneChildAtMostHeight(vMatch, h, 0);
    if OneChildNodes(vMatch, h, 0) > 0 {
      var g, q := CountedLoneParent(vMatch, h, 0);
    }
    forall g: nat, q: nat | g <= h && LoneParent(vMatch, g, q)
      ensures OneChildNodes(vMatch, h, 0) > 0
    {
      Aligned(g, h, 1);
      OrderedByFirst(g, q, 1 * Pow2(h - g));
      LoneParentCounted(vMatch, h, 0, g, q);
    }
  }

  // Five transactions with the last one matched: two hashes, but five bits.
  lemma DocumentedBitsBoundFails<H>(hash: (H, H) -> H, txids: seq<H>)
    requires |txids| == 5
    ensures var vMatch := [false, false, false, false, true];
            && |BuiltHashes(hash, txids, vMatch, 3, 0)| == 2
            && |BuiltBits(vMatch, 3, 0)| == 5
  {
    var vMatch := [false, false, false, false, true];
    assert Pow2(2) == 4 && Pow2(3) == 8;
    assert vMatch[4];
    assert ParentOfMatch(vMatch, 3, 0) && ParentOfMatch(vMatch, 2, 1) && ParentOfMatch(vMatch, 1, 2);
    assert !ParentOfMatch(vMatch, 2, 0) && ParentOfMatch(vMatch, 0, 4);
    assert |BuiltBits(vMatch, 1, 2)| == 2 && |BuiltHashes(hash, txids, vMatch, 1, 2)| == 1;
    assert |BuiltBits(vMatch, 2, 1)| == 3 && |BuiltHashes(hash, txids, vMatch, 2, 1)| == 1;
  }

  // ------------------------------------------------------------ encoded size

  // The bytes of a length in front of a vector.
  function LengthSize(n: nat): nat {
    if n < 253 then 1 else if n <= 0xffff then 3 else if n <= 0xffff_ffff then 5 else 9
  }

  // The number of transactions, the hashes, and the flags packed into bytes.
  function EncodedSize(nHashes: nat, nBytes: nat): nat {
    4 + LengthSize(nHashes) + 32 * nHashes + LengthSize(nBytes) + nBytes
  }

  // 10 + ceil(32.25 * N).
  function DocumentedSize(nHashes: nat): nat {
    10 + (129 * nHashes + 3) / 4
  }

  lemma SizeArithmetic(m: nat, k: nat)
    requires 1 <= m <= MAX_BLOCK_WEIGHT / MIN_TRANSACTION_WEIGHT && k <= 15
    ensures var size := EncodedSize(m, (2 * m - 1 + k + 7) / 8);
            && size <= DocumentedSize(m) + 2
            && (size <= DocumentedSize(m) <==> 2 * m + k <= 2017 || k + 2 * ((m - 1) % 4) <= 7)
  {
  }

  // The documented size, a hard guarantee by its words, is kept if and only if
  // the stored and the one-child nodes of the match mask are few enough for the
  // flags to fit into 252 bytes, or into the quarter of a byte per hash that is
  // meant for them.  It is never exceeded by more than two bytes.
  lemma SizeBound<H>(hash: (H, H) -> H, txids: seq<H>, vMatch: seq<bool>)
    requires |vMatch| == |txids| && 0 < |txids| <= MAX_BLOCK_WEIGHT / MIN_TRANSACTION_WEIGHT
    ensures var h := TreeHeight(|txids|);
            var n, bits := |BuiltHashes(hash, txids, vMatch, h, 0)|, |BuiltBits(vMatch, h, 0)|;
            var m, k := StoredNodes(vMatch, h, 0), OneChildNodes(vMatch, h, 0);
            && EncodedSize(n, (bits + 7) / 8) <= DocumentedSize(n) + 2
            && (EncodedSize(n, (bits + 7) / 8) <= DocumentedSize(n) <==> 2 * m + k <= 2017 || k + 2 * ((m - 1) % 4) <= 7)
  {
    hide BuiltHashes, BuiltBits, OneChildNodes, StoredNodes, EncodedSize, DocumentedSize;
    var h := TreeHeight(|txids|);
    HeightAtMost15(|txids|);
    BitsExact(hash, txids, vMatch, h, 0);
    HashesExact(hash, txids, vMatch, h, 0);
    OneChildAtMostHeight(vMatch, h, 0);
    HashPerTransaction(hash, txids, vMatch, h, 0);
    SizeArithmetic(StoredNodes(vMatch, h, 0), OneChildNodes(vMatch, h, 0));
  }

  lemma HeightAtMost15(n: nat)
    requires n <= 0x8000
    ensures TreeHeight(n) <= 15
  {
    SmallPowers();
    var h := TreeHeight(n);
    if h > 15 {
      Pow2Monotone(15, h - 1);
    }
  }

  // Where every transaction is matched, every one is stored.
  lemma {:induction false} AllStored<H>(hash: (H, H) -> H, txids: seq<H>, vMatch: seq<bool>, height: nat, pos: nat)
    requires |vMatch| == |txids| && IsNode(|txids|, height, pos) && forall p | 0 <= p < |vMatch| :: vMatch[p]
    ensures |BuiltHashes(hash, txids, vMatch, height, pos)| == Min(First(height, pos + 1), |txids|) - First(height, pos)
  {
    hide First;
    EveryParent(vMatch, height, pos);
    if height > 0 {
      FirstOfChildren(height, pos);
      AllStored(hash, txids, vMatch, height - 1, 2 * pos);
      if HasRightChild(|txids|, height, pos) {
        AllStored(hash, txids, vMatch, height - 1, 2 * pos + 1);
      }
    } else {
      FirstIs(pos);
      FirstIs(pos + 1);
    }
  }

  lemma FirstIs(pos: nat)
    ensures First(0, pos) == pos
  {
  }

  lemma EveryParent(vMatch: seq<bool>, height: nat, pos: nat)
    requires IsNode(|vMatch|, height, pos) && forall p | 0 <= p < |vMatch| :: vMatch[p]
    ensures ParentOfMatch(vMatch, height, pos)
  {
    FirstAscends(height, pos);
    assert vMatch[First(height, pos)];
  }

  // The nodes without right child of a tree over m leaves.
  function LoneNodes(m: nat, height: nat): nat {
    if height == 0 || m >= Pow2(height) then 0
    else if m > Pow2(height - 1) then LoneNodes(m - Pow2(height - 1), height - 1)
    else 1 + LoneNodes(m, height - 1)
  }

  lemma {:induction false} AllExplored(vMatch: seq<bool>, height: nat, pos: nat)
    requires IsNode(|vMatch|, height, pos) && forall p | 0 <= p < |vMatch| :: vMatch[p]
    ensures OneChildNodes(vMatch, height, pos) == LoneNodes(|vMatch| - First(height, pos), height)
  {
    hide First;
    EveryParent(vMatch, height, pos);
    if height > 0 {
      FirstOfChildren(height, pos);
      if |vMatch| - First(height, pos) >= Pow2(height) {
        FullHasNoOneChild(vMatch, height, pos);
      } else if HasRightChild(|vMatch|, height, pos) {
        FullHasNoOneChild(vMatch, height - 1, 2 * pos);
        AllExplored(vMatch, height - 1, 2 * pos + 1);
      } else {
        AllExplored(vMatch, height - 1, 2 * pos);
      }
    }
  }

  // A block of 1012 transactions that are all matched: 254 bytes of flags, where
  // 253 are allowed for.
  lemma DocumentedSizeFails<H>(hash: (H, H) -> H, txids: seq<H>, vMatch: seq<bool>)
    requires |txids| == |vMatch| == 1012 && forall p | 0 <= p < |vMatch| :: vMatch[p]
    ensures TreeHeight(1012) == 10
    ensures var n, bits := |BuiltHashes(hash, txids, vMatch, 10, 0)|, |BuiltBits(vMatch, 10, 0)|;
            && n == 1012 && bits == 2025 && EncodedSize(n, (bits + 7) / 8) == DocumentedSize(n) + 1
  {
    RootOf1012();
    LoneNodesOf1012();
    hide BuiltHashes, BuiltBits, OneChildNodes, LoneNodes;
    RootSpan(10);
    AllStored(hash, txids, vMatch, 10, 0);
    AllExplored(vMatch, 10, 0);
    BitsExact(hash, txids, vMatch, 10, 0);
  }

  lemma RootSpan(height: nat)
    ensures First(height, 0) == 0 && First(height, 1) == Pow2(height)
  {
  }

  lemma RootOf1012()
    ensures TreeHeight(1012) == 10 && Pow2(10) == 1024
  {
    SmallPowers();
  }

  lemma LoneNodesOf1012()
    ensures LoneNodes(1012, 10) == 2
  {
    SmallPowers();
    assert Pow2(2) == 4 && Pow2(4) == 16 && Pow2(6) == 64 && Pow2(8) == 256;
    assert LoneNodes(4, 4) == 2;
    assert LoneNodes(52, 6) == 2;
    assert LoneNodes(244, 8) == 2;
  }

  // ------------------------------------------------------------- bit packing

  // The first `p` flags, eight per byte, the least significant bit first.
  predicate PackedUpTo(vBits: seq<bool>, p: nat, vBytes: seq<bv8>)
    requires p <= |vBits|
  {
    && |vBytes| == (|vBits| + 7) / 8
    && (forall i, k | 0 <= i < |vBytes| && 0 <= k < 8 :: BitOf(vBytes[i], k) == (8 * i + k < p && vBits[8 * i + k]))
  }

  // All flags, padded with zeros.
  predicate Packed(vBits: seq<bool>, vBytes: seq<bv8>) {
    PackedUpTo(vBits, |vBits|, vBytes)
  }

  lemma PackOne(vBits: seq<bool>, p: nat, vBytes: seq<bv8>)
    requires p < |vBits| && PackedUpTo(vBits, p, vBytes)
    ensures PackedUpTo(vBits, p + 1, if vBits[p] then vBytes[p / 8 := WithBit(vBytes[p / 8], p % 8)] else vBytes)
  {
    hide BitOf, WithBit;
    if vBits[p] {
      var packed := vBytes[p / 8 := WithBit(vBytes[p / 8], p % 8)];
      forall i, k | 0 <= i < |vBytes| && 0 <= k < 8
        ensures BitOf(packed[i], k) == (8 * i + k < p + 1 && vBits[8 * i + k])
      {
        SetBit(vBytes[p / 8], p % 8, k);
        assert BitOf(vBytes[i], k) == (8 * i + k < p && vBits[8 * i + k]);
        ByteAndBit(p, i, k);
      }
    }
  }

  lemma ByteAndBit(p: nat, i: nat, k: nat)
    requires k < 8
    ensures 8 * i + k == p <==> i == p / 8 && k == p % 8
  {
  }

  function Unpacked(vBytes: seq<bv8>): seq<bool> {
    seq(8 * |vBytes|, p requires 0 <= p < 8 * |vBytes| => BitOf(vBytes[p / 8], p % 8))
  }

  lemma UnpackedPacked(vBits: seq<bool>, vBytes: seq<bv8>)
    requires Packed(vBits, vBytes)
    ensures |vBits| <= |Unpacked(vBytes)| < |vBits| + 8 && Unpacked(vBytes)[..|vBits|] == vBits
  {
    forall p | 0 <= p < |vBits|
      ensures Unpacked(vBytes)[p] == vBits[p]
    {
      assert p == 8 * (p / 8) + p % 8;
      assert BitOf(vBytes[p / 8], p % 8) == vBits[8 * (p / 8) + p % 8];
    }
  }

  method PackBits(vBits: seq<bool>) returns (vBytes: seq<bv8>)
    ensures Packed(vBits, vBytes)
  {
    vBytes := seq((|vBits| + 7) / 8, i => 0);
    assert PackedUpTo(vBits, 0, vBytes);
    hide PackedUpTo;
    for p := 0 to |vBits|
      invariant |vBytes| == (|vBits| + 7) / 8
      invariant PackedUpTo(vBits, p, vBytes)
    {
      PackOne(vBits, p, vBytes);
      if vBits[p] {
        vBytes := vBytes[p / 8 := WithBit(vBytes[p / 8], p % 8)];
      }
    }
  }

  method UnpackBits(vBytes: seq<bv8>) returns (vBits: seq<bool>)
    ensures vBits == Unpacked(vBytes)
  {
    hide BitOf;
    vBits := seq(8 * |vBytes|, p => false);
    for p := 0 to |vBits|
      invariant |vBits| == 8 * |vBytes|
      invariant forall q | 0 <= q < p :: vBits[q] == Unpacked(vBytes)[q]
    {
      vBits := vBits[p := BitOf(vBytes[p / 8], p % 8)];
    }
  }

  // ---------------------------------------------------------- whole proofs

  // The sanity checks before the traversal.
  predicate Plausible<H>(proof: Proof<H>) {
    && 0 < proof.nTransactions <= MAX_BLOCK_WEIGHT / MIN_TRANSACTION_WEIGHT
    && |proof.vHash| <= proof.nTransactions && |proof.vHash| <= |proof.vBits|
  }

  function ExtractRoot<H(==)>(hash: (H, H) -> H, null_: H, proof: Proof<H>): Extracted<H> {
    Extract(hash, null_, proof, TreeHeight(proof.nTransactions), 0, 0, 0)
  }

  // Nothing went wrong, and all bits (up to padding) and hashes were used.
  predicate Accepted<H(==)>(hash: (H, H) -> H, null_: H, proof: Proof<H>) {
    && Plausible(proof)
    && var e := ExtractRoot(hash, null_, proof);
       !e.bad && (e.nBitsUsed + 7) / 8 == (|proof.vBits| + 7) / 8 && e.nHashUsed == |proof.vHash|
  }

  // No proof can show a transaction at a position where it is not: for every
  // bits and hashes, a proof that yields the true root shows only true pairs,
  // each position at most once.  If it is accepted, then also for every number of
  // transactions with the height of the true tree.
  lemma ProofSound<H(!new)>(hash: (H, H) -> H, null_: H, txids: seq<H>, proof: Proof<H>)
    requires Injective(hash) && |txids| > 0
    requires
      || proof.nTransactions == |txids|
      || (Accepted(hash, null_, proof) && TreeHeight(proof.nTransactions) == TreeHeight(|txids|))
    requires ExtractRoot(hash, null_, proof).root == MerkleRoot(hash, txids)
    ensures var e := ExtractRoot(hash, null_, proof);
            && (forall k | 0 <= k < |e.matches| :: e.indices[k] < |txids| && txids[e.indices[k]] == e.matches[k])
            && (forall j, k | 0 <= j < k < |e.indices| :: e.indices[j] < e.indices[k])
  {
    ExtractSound(hash, null_, txids, proof, TreeHeight(|txids|), 0, 0, 0);
    ExtractAscends(hash, null_, proof, TreeHeight(|txids|), 0, 0, 0);
  }

  predicate Extends<H(==)>(p: Proof<H>, q: Proof<H>) {
    p.nTransactions == q.nTransactions && p.vBits <= q.vBits && p.vHash <= q.vHash
  }

  // What was read without failure does not change when data is appended.
  lemma {:induction false} ExtractSame<H(!new)>(hash: (H, H) -> H, null_: H, p: Proof<H>, q: Proof<H>,
                                                height: nat, pos: nat, nBitsUsed: nat, nHashUsed: nat)
    requires Extends(p, q) && !Extract(hash, null_, p, height, pos, nBitsUsed, nHashUsed).bad
    ensures Extract(hash, null_, q, height, pos, nBitsUsed, nHashUsed) == Extract(hash, null_, p, height, pos, nBitsUsed, nHashUsed)
    decreases height
  {
    hide HasRightChild;
    if height > 0 && p.vBits[nBitsUsed] {
      var l := Extract(hash, null_, p, height - 1, 2 * pos, nBitsUsed + 1, nHashUsed);
      ExtractSame(hash, null_, p, q, height - 1, 2 * pos, nBitsUsed + 1, nHashUsed);
      if HasRightChild(p.nTransactions, height, pos) {
        ExtractSame(hash, null_, p, q, height - 1, 2 * pos + 1, l.nBitsUsed, l.nHashUsed);
      }
    }
  }

  // Nothing can be appended to an accepted proof: no hash, and no byte of flags.
  lemma NothingAppended<H(!new)>(hash: (H, H) -> H, null_: H, p: Proof<H>, q: Proof<H>)
    requires Accepted(hash, null_, p) && Accepted(hash, null_, q) && Extends(p, q)
    ensures q.vHash == p.vHash && (|q.vBits| + 7) / 8 == (|p.vBits| + 7) / 8
  {
    hide Extract;
    ExtractSame(hash, null_, p, q, TreeHeight(p.nTransactions), 0, 0, 0);
  }

  // A proof for a block of three that claims a fourth transaction, the third one
  // once more: its root is the true one, and it is refused.
  lemma RepeatedLastRefused<H(!new)>(hash: (H, H) -> H, null_: H, a: H, b: H, c: H, vBits: seq<bool>)
    requires |vBits| == 8 && vBits[..5] == [true, false, true, false, true]
    ensures var proof := Proof(4, vBits, [hash(a, b), c, c]);
            && ExtractRoot(hash, null_, proof).root == MerkleRoot(hash, [a, b, c])
            && ExtractRoot(hash, null_, proof).indices == [3]
            && !Accepted(hash, null_, proof)
  {
    var proof := Proof(4, vBits, [hash(a, b), c, c]);
    assert Pow2(1) == 2 && Pow2(2) == 4;
    assert TreeHeight(4) == 2 && TreeHeight(3) == 2;
    assert forall i | 0 <= i < 5 :: vBits[i] == vBits[..5][i];
    assert CalcHash(hash, [a, b, c], 1, 0) == hash(a, b) && CalcHash(hash, [a, b, c], 1, 1) == hash(c, c);
    var l := Extract(hash, null_, proof, 1, 0, 1, 0);
    assert l == Extracted(hash(a, b), 2, 1, [], [], false);
    var rl := Extract(hash, null_, proof, 0, 2, 3, 1);
    assert rl == Extracted(c, 4, 2, [], [], false);
    var rr := Extract(hash, null_, proof, 0, 3, 4, 2);
    assert rr == Extracted(c, 5, 3, [c], [3], false);
    var r := Extract(hash, null_, proof, 1, 1, 2, 1);
    assert r == Extracted(hash(c, c), 5, 3, [] + [c], [] + [3], true);
  }

  // The proof that is built for a list of transactions and a match mask, as it
  // comes out of the bytes on the wire.
  function WireProof<H>(hash: (H, H) -> H, txids: seq<H>, vMatch: seq<bool>, vBytes: seq<bv8>): Proof<H>
    requires |vMatch| == |txids| > 0
  {
    Proof(|txids|, Unpacked(vBytes), BuiltHashes(hash, txids, vMatch, TreeHeight(|txids|), 0))
  }

  // A built proof survives the wire: it is accepted, and yields the root, and
  // exactly the matched transactions with their positions in order.
  lemma ProofComplete<H(!new)>(hash: (H, H) -> H, null_: H, txids: seq<H>, vMatch: seq<bool>, vBytes: seq<bv8>)
    requires Injective(hash) && Distinct(txids)
    requires |vMatch| == |txids| && 0 < |txids| <= MAX_BLOCK_WEIGHT / MIN_TRANSACTION_WEIGHT
    requires Packed(BuiltBits(vMatch, TreeHeight(|txids|), 0), vBytes)
    ensures var proof := WireProof(hash, txids, vMatch, vBytes);
            var e := ExtractRoot(hash, null_, proof);
            && Accepted(hash, null_, proof)
            && e.root == MerkleRoot(hash, txids)
            && e.indices == MatchedIn(vMatch, 0, |txids|)
            && e.matches == Pick(txids, e.indices)
  {
    var h := TreeHeight(|txids|);
    var bits, hashes := BuiltBits(vMatch, h, 0), BuiltHashes(hash, txids, vMatch, h, 0);
    var proof := WireProof(hash, txids, vMatch, vBytes);
    UnpackedPacked(bits, vBytes);
    assert StandsAt(bits, proof.vBits, 0) && StandsAt(hashes, proof.vHash, 0);
    ExtractComplete(hash, null_, txids, vMatch, proof, h, 0, 0, 0);
    HashPerTransaction(hash, txids, vMatch, h, 0);
    BitsExact(hash, txids, vMatch, h, 0);
    MatchedSplit(vMatch, 0, |txids|, First(h, 1));
    MatchedBeyond(vMatch, |txids|, First(h, 1));
  }

  /** CPartialMerkleTree; `null_` is the all-zero hash. */
  class PartialMerkleTree<H(==)> {
    const hash: (H, H) -> H
    const null_: H
    var nTransactions: nat
    var vBits: seq<bool>
    var vHash: seq<H>
    var fBad: bool

    constructor (hash: (H, H) -> H, null_: H, vTxid: seq<H>, vMatch: seq<bool>)
      requires |vMatch| == |vTxid| > 0
      ensures this.hash == hash && this.null_ == null_ && !fBad
      ensures nTransactions == |vTxid|
      ensures vBits == BuiltBits(vMatch, TreeHeight(|vTxid|), 0)
      ensures vHash == BuiltHashes(hash, vTxid, vMatch, TreeHeight(|vTxid|), 0)
    {
      this.hash, this.null_ := hash, null_;
      nTransactions, vBits, vHash, fBad := |vTxid|, [], [], false;
      new;
      var nHeight := RootHeight();
      TraverseAndBuild(nHeight, 0, vTxid, vMatch);
    }

    // Reading from the wire.
    constructor Unserialize(hash: (H, H) -> H, null_: H, nTransactions: nat, vHash: seq<H>, vBytes: seq<bv8>)
      ensures this.hash == hash && this.null_ == null_ && !fBad
      ensures Contents() == Proof(nTransactions, Unpacked(vBytes), vHash)
    {
      this.hash, this.null_ := hash, null_;
      this.nTransactions, this.vHash, this.fBad := nTransactions, vHash, false;
      this.vBits := [];
      new;
      this.vBits := UnpackBits(vBytes);
    }

    function Contents(): Proof<H>
      reads this
    {
      Proof(nTransactions, vBits, vHash)
    }

    method Serialize() returns (n: nat, hashes: seq<H>, vBytes: seq<bv8>)
      ensures n == nTransactions && hashes == vHash && Packed(vBits, vBytes)
    {
      n, hashes := nTransactions, vHash;
      vBytes := PackBits(vBits);
    }

    method RootHeight() returns (nHeight: nat)
      ensures nHeight == TreeHeight(nTransactions)
    {
      nHeight := 0;
      InsideWidth(nTransactions, nHeight, 1);
      while TreeWidth(nTransactions, nHeight) > 1
        invariant nHeight > 0 ==> Pow2(nHeight - 1) < nTransactions
        invariant HeightFrom(nTransactions, nHeight) == TreeHeight(nTransactions)
        invariant TreeWidth(nTransactions, nHeight) > 1 <==> Pow2(nHeight) < nTransactions
        decreases nTransactions - Pow2(nHeight)
      {
        nHeight := nHeight + 1;
        InsideWidth(nTransactions, nHeight, 1);
      }
    }

    method AnyMatch(height: nat, pos: nat, vMatch: seq<bool>) returns (fParentOfMatch: bool)
      requires |vMatch| == nTransactions
      ensures fParentOfMatch == ParentOfMatch(vMatch, height, pos)
    {
      fParentOfMatch := false;
      var p := First(height, pos);
      while p < First(height, pos + 1) && p < nTransactions
        invariant First(height, pos) <= p
        invariant fParentOfMatch <==>
                    exists q :: First(height, pos) <= q < p && q < First(height, pos + 1) && q < |vMatch| && vMatch[q]
      {
        fParentOfMatch := fParentOfMatch || vMatch[p];
        p := p + 1;
      }
    }

    method TraverseAndBuild(height: nat, pos: nat, vTxid: seq<H>, vMatch: seq<bool>)
      requires |vMatch| == |vTxid| == nTransactions && IsNode(nTransactions, height, pos)
      modifies this`vBits, this`vHash
      decreases height
      ensures vBits == old(vBits) + BuiltBits(vMatch, height, pos)
      ensures vHash == old(vHash) + BuiltHashes(hash, vTxid, vMatch, height, pos)
    {
      hide First, TreeWidth, ParentOfMatch, CalcHash;
      var fParentOfMatch := AnyMatch(height, pos, vMatch);
      vBits := vBits + [fParentOfMatch];
      if height == 0 || !fParentOfMatch {
        vHash := vHash + [CalcHash(hash, vTxid, height, pos)];
      } else {
        FirstOfChildren(height, pos);
        TraverseAndBuild(height - 1, 2 * pos, vTxid, vMatch);
        InsideWidth(nTransactions, height - 1, 2 * pos + 1);
        if 2 * pos + 1 < TreeWidth(nTransactions, height - 1) {
          TraverseAndBuild(height - 1, 2 * pos + 1, vTxid, vMatch);
        }
      }
    }

    // The next stored hash, or a failure when there is none.
    method TakeHash(nHashUsed: nat) returns (h: H, nHashUsed': nat)
      modifies this`fBad
      ensures if nHashUsed < |vHash| then h == vHash[nHashUsed] && nHashUsed' == nHashUsed + 1 && fBad == old(fBad)
              else h == null_ && nHashUsed' == nHashUsed && fBad
    {
      if nHashUsed >= |vHash| {
        fBad := true;
        return null_, nHashUsed;
      }
      return vHash[nHashUsed], nHashUsed + 1;
    }

    method TraverseAndExtract(height: nat, pos: nat, nBitsUsed: nat, nHashUsed: nat, vMatch: seq<H>, vnIndex: seq<nat>)
      returns (h: H, nBitsUsed': nat, nHashUsed': nat, vMatch': seq<H>, vnIndex': seq<nat>)
      modifies this`fBad
      decreases height, 1
      ensures Reads(Extract(hash, null_, Contents(), height, pos, nBitsUsed, nHashUsed), old(fBad), vMatch, vnIndex,
                    h, nBitsUsed', nHashUsed', vMatch', vnIndex')
    {
      hide HasRightChild;
      h, nBitsUsed', nHashUsed', vMatch', vnIndex' := null_, nBitsUsed, nHashUsed, vMatch, vnIndex;
      if nBitsUsed >= |vBits| {
        fBad := true;
        return;
      }
      var fParentOfMatch := vBits[nBitsUsed];
      if height == 0 || !fParentOfMatch {
        nBitsUsed' := nBitsUsed + 1;
        h, nHashUsed' := TakeHash(nHashUsed);
        if height == 0 && fParentOfMatch && nHashUsed < nHashUsed' {
          vMatch', vnIndex' := vMatch + [h], vnIndex + [pos];
        }
      } else {
        h, nBitsUsed', nHashUsed', vMatch', vnIndex' :=
          ExtractChildren(height, pos, nBitsUsed + 1, nHashUsed, vMatch, vnIndex);
      }
    }

    // What a traversal hands back, in terms of the subtree it has read.
    predicate Reads(e: Extracted<H>, bad: bool, vMatch: seq<H>, vnIndex: seq<nat>,
                    h: H, nBitsUsed: nat, nHashUsed: nat, vMatch': seq<H>, vnIndex': seq<nat>)
      reads this
    {
      && h == e.root && nBitsUsed == e.nBitsUsed && nHashUsed == e.nHashUsed
      && vMatch' == vMatch + e.matches && vnIndex' == vnIndex + e.indices
      && fBad == (bad || e.bad)
    }

    // The part of the traversal that descends.
    method ExtractChildren(height: nat, pos: nat, nBitsUsed: nat, nHashUsed: nat, vMatch: seq<H>, vnIndex: seq<nat>)
      returns (h: H, nBitsUsed': nat, nHashUsed': nat, vMatch': seq<H>, vnIndex': seq<nat>)
      requires height > 0
      modifies this`fBad
      decreases height, 0
      ensures Reads(ReadChildren(hash, null_, Contents(), height, pos, nBitsUsed, nHashUsed), old(fBad), vMatch, vnIndex,
                    h, nBitsUsed', nHashUsed', vMatch', vnIndex')
    {
      hide TreeWidth, Extract;
      var left, right;
      left, nBitsUsed', nHashUsed', vMatch', vnIndex' :=
        TraverseAndExtract(height - 1, 2 * pos, nBitsUsed, nHashUsed, vMatch, vnIndex);
      InsideWidth(nTransactions, height - 1, 2 * pos + 1);
      if 2 * pos + 1 < TreeWidth(nTransactions, height - 1) {
        right, nBitsUsed', nHashUsed', vMatch', vnIndex' :=
          TraverseAndExtract(height - 1, 2 * pos + 1, nBitsUsed', nHashUsed', vMatch', vnIndex');
        if right == left {
          fBad := true;
        }
      } else {
        right := left;
      }
      h := hash(left, right);
    }

    // The root of an accepted proof, or null.  The matches are handed out even
    // when the proof is refused; `vnIndex` is appended to, never cleared.
    method ExtractMatches(vnIndex: seq<nat>) returns (root: H, vMatch: seq<H>, vnIndex': seq<nat>)
      modifies this`fBad
      ensures root == if !old(fBad) && Accepted(hash, null_, Contents())
                      then ExtractRoot(hash, null_, Contents()).root else null_
      ensures vMatch == if Plausible(Contents()) then ExtractRoot(hash, null_, Contents()).matches else []
      ensures vnIndex' == vnIndex + if Plausible(Contents()) then ExtractRoot(hash, null_, Contents()).indices else []
      ensures nTransactions == 0 || nTransactions > 16_666 || |vHash| > nTransactions || |vBits| < |vHash| ==>
                root == null_ && vMatch == [] && vnIndex' == vnIndex
    {
      root, vMatch, vnIndex' := null_, [], vnIndex;
      if nTransactions == 0 || nTransactions > MAX_BLOCK_WEIGHT / MIN_TRANSACTION_WEIGHT
         || |vHash| > nTransactions || |vBits| < |vHash| {
        return;
      }
      var nHeight := RootHeight();
      var hashMerkleRoot, nBitsUsed, nHashUsed;
      hashMerkleRoot, nBitsUsed, nHashUsed, vMatch, vnIndex' := TraverseAndExtract(nHeight, 0, 0, 0, [], vnIndex);
      if fBad || (nBitsUsed + 7) / 8 != (|vBits| + 7) / 8 || nHashUsed != |vHash| {
        return;
      }
      root := hashMerkleRoot;
    }
  }

  // A proof made for a block, written, read and extracted again.
  method Relay<H(==, !new)>(hash: (H, H) -> H, null_: H, txids: seq<H>, vMatch: seq<bool>)
    returns (root: H, matches: seq<H>, indices: seq<nat>, vBytes: seq<bv8>)
    requires Injective(hash) && Distinct(txids)
    requires |vMatch| == |txids| && 0 < |txids| <= MAX_BLOCK_WEIGHT / MIN_TRANSACTION_WEIGHT
    ensures root == MerkleRoot(hash, txids)
    ensures indices == MatchedIn(vMatch, 0, |txids|) && matches == Pick(txids, indices)
    ensures var h := TreeHeight(|txids|);
            var n, bits := |BuiltHashes(hash, txids, vMatch, h, 0)|, |BuiltBits(vMatch, h, 0)|;
            && |vBytes| == (bits + 7) / 8 && EncodedSize(n, |vBytes|) <= DocumentedSize(n) + 2
  {
    hide Injective, Distinct, MatchedIn, BuiltBits, BuiltHashes, EncodedSize, DocumentedSize;
    var made := new PartialMerkleTree<H>(hash, null_, txids, vMatch);
    var n, hashes;
    n, hashes, vBytes := made.Serialize();
    var read := new PartialMerkleTree<H>.Unserialize(hash, null_, n, hashes, vBytes);
    ProofComplete(hash, null_, txids, vMatch, vBytes);
    SizeBound(hash, txids, vMatch);
    assert read.Contents() == WireProof(hash, txids, vMatch, vBytes);
    root, matches, indices := read.ExtractMatches([]);
  }
}
