/**
 The cuckoo cache behind signature checking: every element has eight places, an
 insert displaces elements until it meets a collected slot, and a counter over
 the current epoch bounds how many elements stay uncollected.
 */
module CuckooCache {
  import opened Bits
  import opened Numbers
  import opened Options

  const TWO_32: nat := 0x1_0000_0000

  // ----------------------------------------------------- bit_packed_atomic_flags

  // Bytes reserved for a number of flags; the rounding wraps in 32 bits.
  function FlagBytes(size: nat): nat {
    (size + 7) % TWO_32 / 8
  }

  // The reserved bytes hold all flags except for the last seven 32-bit sizes.
  lemma FlagsFit(size: nat)
    requires size < TWO_32
    ensures size <= 8 * FlagBytes(size) <==> size <= TWO_32 - 8
  {
  }

  // With the first size beyond, the rounding wraps to no byte at all.
  lemma FlagsMissing()
    ensures FlagBytes(TWO_32 - 7) == 0
  {
  }

  predicate BitAt(mem: seq<bv8>, i: nat)
    requires i < 8 * |mem|
  {
    BitOf(mem[i / 8], i % 8)
  }

  class Flags {
    var mem: seq<bv8>

    predicate IsSet(s: nat)
      requires s < 8 * |mem|
      reads this
    {
      BitAt(mem, s)
    }

    constructor ()
      ensures mem == []
    {
      mem := [];
    }

    // All flags are set, and there is room for `size` of them.
    method Setup(size: nat)
      requires size <= TWO_32 - 8
      modifies this
      ensures size <= 8 * |mem| && forall i: nat | i < 8 * |mem| :: BitAt(mem, i)
    {
      mem := [];
      var n := FlagBytes(size);
      for i := 0 to n
        invariant |mem| == i && forall k | 0 <= k < i :: mem[k] == 0xFF
      {
        mem := mem + [0xFF];
      }
      hide BitOf, WithBit, WithoutBit;
      forall i: nat | i < 8 * |mem|
        ensures BitAt(mem, i)
      {
        AllOnes(i % 8);
      }
    }

    method Set(s: nat)
      requires s < 8 * |mem|
      modifies this
      ensures |mem| == old(|mem|) && forall i: nat | i < 8 * |mem| :: BitAt(mem, i) <==> i == s || BitAt(old(mem), i)
    {
      hide BitOf, WithBit, WithoutBit;
      ghost var was := mem;
      mem := mem[s / 8 := WithBit(mem[s / 8], s % 8)];
      forall i: nat | i < 8 * |mem|
        ensures BitAt(mem, i) <==> i == s || BitAt(was, i)
      {
        SetBit(was[s / 8], s % 8, i % 8);
      }
    }

    method Unset(s: nat)
      requires s < 8 * |mem|
      modifies this
      ensures |mem| == old(|mem|) && forall i: nat | i < 8 * |mem| :: BitAt(mem, i) <==> i != s && BitAt(old(mem), i)
    {
      hide BitOf, WithBit, WithoutBit;
      ghost var was := mem;
      mem := mem[s / 8 := WithoutBit(mem[s / 8], s % 8)];
      forall i: nat | i < 8 * |mem|
        ensures BitAt(mem, i) <==> i != s && BitAt(was, i)
      {
        ClearBit(was[s / 8], s % 8, i % 8);
      }
    }
  }

  // ------------------------------------------------------------------ the table

  type Word = x: nat | x < TWO_32

  const PLACES: nat := 8

  // The place that a 32-bit hash selects: a fixed-point product.
  function Place(hash: Word, size: nat): (loc: nat)
    ensures size > 0 ==> loc < size
    ensures loc * TWO_32 <= hash * size < (loc + 1) * TWO_32
  {
    PlaceBound(hash, size);
    hash * size / TWO_32
  }

  lemma PlaceBound(hash: Word, size: nat)
    ensures size > 0 ==> hash * size / TWO_32 < size
  {
    if size > 0 {
      assert hash * size < TWO_32 * size;
    }
  }

  // Every slot of the table is the place of some hash.
  lemma EveryPlaceReached(size: nat, loc: nat) returns (hash: Word)
    requires loc < size <= TWO_32
    ensures Place(hash, size) == loc
  {
    var x := loc * TWO_32 + size - 1;
    QuotientRemainder(x, size);
    var q := x / size;
    assert q * size <= x < q * size + size;
    assert loc * TWO_32 <= q * size < (loc + 1) * TWO_32;
    if q >= TWO_32 {
      ProductMonotone(size, TWO_32, q);
      ProductMonotone(TWO_32, loc + 1, size);
    }
    hash := q;
    DivisionUnique(hash * size, TWO_32, loc, hash * size - loc * TWO_32);
  }

  type Hash<!Element> = (nat, Element) -> Word

  function Locs<Element>(hash: Hash<Element>, size: nat, e: Element): (locs: seq<nat>)
    requires size > 0
    ensures |locs| == PLACES && forall k | 0 <= k < PLACES :: locs[k] == Place(hash(k, e), size) < size
  {
    [Place(hash(0, e), size), Place(hash(1, e), size), Place(hash(2, e), size), Place(hash(3, e), size),
     Place(hash(4, e), size), Place(hash(5, e), size), Place(hash(6, e), size), Place(hash(7, e), size)]
  }

  /** One slot: its element, whether it is uncollected, and its epoch. */
  datatype Cell<Element> = Cell(elem: Element, live: bool, recent: bool)

  ghost function Tally<Element>(cells: seq<Cell<Element>>, q: Cell<Element> -> bool): nat {
    if cells == [] then 0 else Tally(cells[..|cells| - 1], q) + B(q(cells[|cells| - 1]))
  }

  function B(b: bool): nat {
    if b then 1 else 0
  }

  lemma {:induction false} TallyUpdate<Element>(cells: seq<Cell<Element>>, i: nat, x: Cell<Element>, q: Cell<Element> -> bool)
    requires i < |cells|
    ensures Tally(cells[i := x], q) + B(q(cells[i])) == Tally(cells, q) + B(q(x))
  {
    var n := |cells| - 1;
    if i == n {
      assert cells[i := x][..n] == cells[..n];
    } else {
      assert cells[i := x][..n] == cells[..n][i := x];
      TallyUpdate(cells[..n], i, x, q);
    }
  }

  lemma {:induction false} TallyNone<Element>(cells: seq<Cell<Element>>, q: Cell<Element> -> bool)
    requires forall i | 0 <= i < |cells| :: !q(cells[i])
    ensures Tally(cells, q) == 0
  {
    if cells != [] {
      TallyNone(cells[..|cells| - 1], q);
    }
  }

  // What a tally distinguishes among live cells.
  datatype Tag<Element> = Tag(elem: Element, recent: bool)

  ghost function Of<Element(!new)>(t: Tag<Element>): Cell<Element> -> bool {
    (c: Cell<Element>) => c.live && c.elem == t.elem && c.recent == t.recent
  }

  ghost function Recents<Element(!new)>(): Cell<Element> -> bool {
    (c: Cell<Element>) => c.live && c.recent
  }

  ghost function Olds<Element(!new)>(): Cell<Element> -> bool {
    (c: Cell<Element>) => c.live && !c.recent
  }

  // Every live element stands in one of its own eight places.
  ghost predicate AtHome<Element(!new)>(hash: Hash<Element>, cells: seq<Cell<Element>>) {
    forall i | 0 <= i < |cells| && cells[i].live :: i in Locs(hash, |cells|, cells[i].elem)
  }

  ghost predicate IsLive<Element(!new)>(cells: seq<Cell<Element>>, e: Element) {
    exists i :: 0 <= i < |cells| && cells[i].live && cells[i].elem == e
  }

  // The insert of e0 into c0 has displaced its way to `cells`, with e in hand.
  ghost predicate InFlight<Element(!new)>(hash: Hash<Element>, c0: seq<Cell<Element>>, e0: Element,
                                          cells: seq<Cell<Element>>, e: Element, recent: bool) {
    && |cells| == |c0| && AtHome(hash, cells)
    && (forall t {:trigger Of(t)} :: Tally(cells, Of(t)) + B(t == Tag(e, recent)) == Tally(c0, Of(t)) + B(t == Tag(e0, true)))
    && Tally(cells, Recents()) + B(recent) == Tally(c0, Recents()) + 1 && Tally(cells, Olds()) + B(!recent) == Tally(c0, Olds())
  }

  // The insert is over; `lost` is what was dropped, if anything.
  ghost predicate Landed<Element(!new)>(hash: Hash<Element>, c0: seq<Cell<Element>>, e0: Element,
                                        cells: seq<Cell<Element>>, lost: Option<Tag<Element>>) {
    && |cells| == |c0| && AtHome(hash, cells)
    && (forall t {:trigger Of(t)} :: Tally(cells, Of(t)) + B(lost == Some(t)) == Tally(c0, Of(t)) + B(t == Tag(e0, true)))
    && Tally(cells, Recents()) <= Tally(c0, Recents()) + 1 && Tally(cells, Olds()) <= Tally(c0, Olds())
  }

  lemma HomeKept<Element(!new)>(hash: Hash<Element>, cells: seq<Cell<Element>>, loc: nat, x: Cell<Element>)
    requires AtHome(hash, cells) && loc < |cells| && (x.live ==> loc in Locs(hash, |cells|, x.elem))
    ensures AtHome(hash, cells[loc := x])
  {
    hide Locs;
  }

  lemma Displaces<Element(!new)>(hash: Hash<Element>, c0: seq<Cell<Element>>, e0: Element,
                                 cells: seq<Cell<Element>>, e: Element, recent: bool, loc: nat)
    requires InFlight(hash, c0, e0, cells, e, recent) && loc < |cells|
    requires cells[loc].live && loc in Locs(hash, |cells|, e)
    ensures InFlight(hash, c0, e0, cells[loc := Cell(e, true, recent)], cells[loc].elem, cells[loc].recent)
    ensures loc in Locs(hash, |cells|, cells[loc].elem)
  {
    assert AtHome(hash, cells);
    hide Locs, AtHome, Tally;
    var x := Cell(e, true, recent);
    HomeKept(hash, cells, loc, x);
    forall t: Tag<Element>
      ensures Tally(cells[loc := x], Of(t)) + B(t == Tag(cells[loc].elem, cells[loc].recent)) == Tally(c0, Of(t)) + B(t == Tag(e0, true))
    {
      TallyUpdate(cells, loc, x, Of(t));
    }
    TallyUpdate(cells, loc, x, Recents());
    TallyUpdate(cells, loc, x, Olds());
  }

  lemma Lands<Element(!new)>(hash: Hash<Element>, c0: seq<Cell<Element>>, e0: Element,
                             cells: seq<Cell<Element>>, e: Element, recent: bool, loc: nat)
    requires InFlight(hash, c0, e0, cells, e, recent) && loc < |cells|
    requires !cells[loc].live && loc in Locs(hash, |cells|, e)
    ensures Landed(hash, c0, e0, cells[loc := Cell(e, true, recent)], None)
  {
    hide Locs, AtHome, Tally;
    var x := Cell(e, true, recent);
    HomeKept(hash, cells, loc, x);
    forall t: Tag<Element>
      ensures Tally(cells[loc := x], Of(t)) == Tally(c0, Of(t)) + B(t == Tag(e0, true))
    {
      TallyUpdate(cells, loc, x, Of(t));
    }
    TallyUpdate(cells, loc, x, Recents());
    TallyUpdate(cells, loc, x, Olds());
  }

  lemma Drops<Element(!new)>(hash: Hash<Element>, c0: seq<Cell<Element>>, e0: Element,
                             cells: seq<Cell<Element>>, e: Element, recent: bool)
    requires InFlight(hash, c0, e0, cells, e, recent)
    ensures Landed(hash, c0, e0, cells, Some(Tag(e, recent)))
  {
    hide Locs, AtHome, Tally;
  }

  lemma {:induction false} TallyPositive<Element>(cells: seq<Cell<Element>>, q: Cell<Element> -> bool)
    ensures Tally(cells, q) > 0 <==> exists i :: 0 <= i < |cells| && q(cells[i])
  {
    if cells != [] {
      var n := |cells| - 1;
      TallyPositive(cells[..n], q);
      if Tally(cells[..n], q) > 0 {
        var i :| 0 <= i < n && q(cells[..n][i]);
        assert q(cells[i]);
      }
      if i :| 0 <= i < |cells| && q(cells[i]) {
        assert i < n ==> q(cells[..n][i]);
      }
    }
  }

  lemma LiveByTally<Element(!new)>(cells: seq<Cell<Element>>, x: Element)
    ensures IsLive(cells, x) <==> Tally(cells, Of(Tag(x, true))) > 0 || Tally(cells, Of(Tag(x, false))) > 0
  {
    hide Tally;
    TallyPositive(cells, Of(Tag(x, true)));
    TallyPositive(cells, Of(Tag(x, false)));
    if IsLive(cells, x) {
      var i :| 0 <= i < |cells| && cells[i].live && cells[i].elem == x;
      assert Of(Tag(x, cells[i].recent))(cells[i]);
    }
  }

  // After an insert the live elements are the old ones and the new one, with
  // the exception of at most one.
  lemma LosesAtMostOne<Element(!new)>(hash: Hash<Element>, c0: seq<Cell<Element>>, e0: Element,
                                      cells: seq<Cell<Element>>, lost: Option<Tag<Element>>, x: Element)
    requires Landed(hash, c0, e0, cells, lost)
    ensures IsLive(cells, x) ==> IsLive(c0, x) || x == e0
    ensures (IsLive(c0, x) || x == e0) && !(lost.Some? && lost.value.elem == x) ==> IsLive(cells, x)
  {
    hide Tally, IsLive, AtHome, Of;
    LiveByTally(cells, x);
    LiveByTally(c0, x);
    var t, f := Of(Tag(x, true)), Of(Tag(x, false));
    assert Tally(cells, t) + B(lost == Some(Tag(x, true))) == Tally(c0, t) + B(Tag(x, true) == Tag(e0, true));
    assert Tally(cells, f) + B(lost == Some(Tag(x, false))) == Tally(c0, f) + B(Tag(x, false) == Tag(e0, true));
  }

  // Inserting an element that is in the table: its slot is kept and recent.
  lemma RefreshKeepsAll<Element(!new)>(hash: Hash<Element>, c0: seq<Cell<Element>>, loc: nat, x: Element)
    requires AtHome(hash, c0) && loc < |c0| && loc in Locs(hash, |c0|, c0[loc].elem)
    ensures var cells := c0[loc := Cell(c0[loc].elem, true, true)];
            && AtHome(hash, cells)
            && Tally(cells, Recents()) <= Tally(c0, Recents()) + 1 && Tally(cells, Olds()) <= Tally(c0, Olds())
            && (IsLive(cells, x) <==> IsLive(c0, x) || x == c0[loc].elem)
  {
    hide Locs, Tally;
    var cells := c0[loc := Cell(c0[loc].elem, true, true)];
    HomeKept(hash, c0, loc, cells[loc]);
    TallyUpdate(c0, loc, cells[loc], Recents());
    TallyUpdate(c0, loc, cells[loc], Olds());
    if i :| 0 <= i < |c0| && c0[i].live && c0[i].elem == x {
      assert cells[i].live && cells[i].elem == x;
    }
    assert cells[loc].live;
  }

  // ------------------------------------------------------------------- epochs

  // 45 percent of the size, in 32-bit arithmetic.
  function EpochSize(size: nat): nat {
    var n := (45 * size) % TWO_32 / 100;
    if n < 1 then 1 else n
  }

  lemma EpochSizePositive(size: nat)
    ensures EpochSize(size) >= 1
  {
  }

  lemma EpochSizeExact(size: nat)
    ensures EpochSize(size) == (if 45 * size / 100 < 1 then 1 else 45 * size / 100) <==> 45 * size < TWO_32
  {
  }

  // With 2^28 slots, 13 percent instead of 45.
  lemma EpochTooSmall()
    ensures EpochSize(0x1000_0000) == 34896609 && 45 * 0x1000_0000 / 100 == 120795955
  {
  }

  // The most elements of the current epoch that can be uncollected.
  function EpochLimit(epochSize: nat): nat {
    epochSize + Max(1, epochSize / 16)
  }

  // The next epoch: recent elements are demoted, the others collected.
  ghost function Aged<Element>(cells: seq<Cell<Element>>): seq<Cell<Element>> {
    seq(|cells|, i requires 0 <= i < |cells| => AgedCell(cells[i]))
  }

  function AgedCell<Element>(c: Cell<Element>): Cell<Element> {
    Cell(c.elem, c.live && c.recent, false)
  }

  lemma AgedKeeps<Element(!new)>(hash: Hash<Element>, cells: seq<Cell<Element>>)
    requires AtHome(hash, cells)
    ensures AtHome(hash, Aged(cells)) && Tally(Aged(cells), Recents()) == 0
    ensures Tally(Aged(cells), Olds()) == Tally(cells, Recents())
  {
    hide Locs;
    TallyNone(Aged(cells), Recents());
    AgedDemotes(cells);
  }

  // The old elements are those that were recent.
  lemma {:induction false} AgedDemotes<Element(!new)>(cells: seq<Cell<Element>>)
    ensures Tally(Aged(cells), Olds()) == Tally(cells, Recents())
  {
    if cells != [] {
      var n := |cells| - 1;
      AgedDemotes(cells[..n]);
      assert Aged(cells)[..n] == Aged(cells[..n]);
    }
  }

  // The table after epoch_check.
  ghost function Checked<Element(!new)>(cells: seq<Cell<Element>>, counter: nat, epochSize: nat): seq<Cell<Element>> {
    if counter == 0 && Tally(cells, Recents()) >= epochSize then Aged(cells) else cells
  }

  ghost function CellsOf<Element>(table: seq<Element>, mem: seq<bv8>, epochFlags: seq<bool>): seq<Cell<Element>>
    requires |table| == |epochFlags| && |table| <= 8 * |mem|
  {
    seq(|table|, i requires 0 <= i < |table| => Cell(table[i], !BitAt(mem, i), epochFlags[i]))
  }

  class Cache<Element(!new, ==)> {
    const hash: Hash<Element>
    const flags: Flags
    var table: seq<Element>
    var size: nat
    var epochFlags: seq<bool>
    var epochHeuristicCounter: nat
    var epochSize: nat
    var depthLimit: nat

    ghost predicate Shape()
      reads this`table, this`size, this`epochFlags, flags
    {
      2 <= size == |table| == |epochFlags| && size <= 8 * |flags.mem|
    }

    ghost function Cells(): seq<Cell<Element>>
      requires Shape()
      reads this`table, this`size, this`epochFlags, flags
    {
      CellsOf(table, flags.mem, epochFlags)
    }

    ghost predicate Valid()
      reads this, flags
    {
      && Shape() && AtHome(hash, Cells())
      && epochSize >= 1 && Tally(Cells(), Recents()) + epochHeuristicCounter <= EpochLimit(epochSize)
      && Tally(Cells(), Olds()) <= EpochLimit(epochSize)
    }

    // An empty cache of at least two slots.  The source takes the depth limit
    // from a floating-point logarithm of the size.
    constructor (hash: Hash<Element>, newSize: nat, depthLimit: nat, blank: Element)
      requires newSize <= TWO_32 - 8
      ensures this.hash == hash && Valid() && size == Max(2, newSize) && epochSize == EpochSize(size)
      ensures this.depthLimit == depthLimit && epochHeuristicCounter == epochSize
      ensures forall i | 0 <= i < size :: !Cells()[i].live
      ensures fresh(flags)
    {
      hide BitAt, Tally, EpochSize;
      this.hash, this.depthLimit := hash, depthLimit;
      size := if newSize < 2 then 2 else newSize;
      table := seq(if newSize < 2 then 2 else newSize, _ => blank);
      epochFlags := seq(if newSize < 2 then 2 else newSize, _ => false);
      flags := new Flags();
      new;
      flags.Setup(size);
      epochSize := EpochSize(size);
      epochHeuristicCounter := epochSize;
      EpochSizePositive(size);
      TallyNone(Cells(), Recents());
      TallyNone(Cells(), Olds());
    }

    // Makes a slot hold an uncollected element.
    method Put(loc: nat, e: Element, recent: bool)
      requires Shape() && loc < size
      modifies this`table, this`epochFlags, flags
      ensures Shape() && Cells() == old(Cells())[loc := Cell(e, true, recent)]
    {
      hide BitAt;
      table := table[loc := e];
      flags.Unset(loc);
      epochFlags := epochFlags[loc := recent];
    }

    // Exchanges the element in hand with that of a slot.
    method Swap(loc: nat, e: Element, recent: bool) returns (e': Element, recent': bool)
      requires Shape() && loc < size
      modifies this`table, this`epochFlags
      ensures Shape() && e' == old(Cells())[loc].elem && recent' == old(Cells())[loc].recent
      ensures Cells() == old(Cells())[loc := Cell(e, old(Cells())[loc].live, recent)]
    {
      e', recent' := table[loc], epochFlags[loc];
      table := table[loc := e];
      epochFlags := epochFlags[loc := recent];
    }

    // Counts the uncollected elements of the current epoch.
    method CountRecent() returns (n: nat)
      requires Shape()
      ensures n == Tally(Cells(), Recents())
    {
      hide BitAt;
      n := 0;
      for i := 0 to size
        invariant n == Tally(Cells()[..i], Recents())
      {
        assert Cells()[..i + 1][..i] == Cells()[..i];
        if epochFlags[i] && !flags.IsSet(i) {
          n := n + 1;
        }
      }
      assert Cells()[..size] == Cells();
    }

    method Age()
      requires Shape()
      modifies this`epochFlags, flags
      ensures Shape() && Cells() == Aged(old(Cells()))
    {
      hide BitAt;
      ghost var c0 := Cells();
      for i := 0 to size
        invariant Shape() && forall k | 0 <= k < size :: Cells()[k] == if k < i then AgedCell(c0[k]) else c0[k]
      {
        if epochFlags[i] {
          epochFlags := epochFlags[i := false];
        } else {
          flags.Set(i);
        }
      }
    }

    // Leaves room for one more element of the current epoch.
    method EpochCheck()
      requires Valid()
      modifies this`epochFlags, this`epochHeuristicCounter, flags
      ensures Valid() && Cells() == Checked(old(Cells()), old(epochHeuristicCounter), epochSize)
      ensures Tally(Cells(), Recents()) + epochHeuristicCounter + 1 <= EpochLimit(epochSize)
      ensures old(epochHeuristicCounter) > 0 ==> Cells() == old(Cells()) && epochHeuristicCounter == old(epochHeuristicCounter) - 1
      ensures Cells() != old(Cells()) ==> epochHeuristicCounter == epochSize
    {
      hide AtHome, Tally, Aged;
      if epochHeuristicCounter != 0 {
        epochHeuristicCounter := epochHeuristicCounter - 1;
        return;
      }
      var unused := CountRecent();
      if unused >= epochSize {
        AgedKeeps(hash, Cells());
        Age();
        epochHeuristicCounter := epochSize;
      } else {
        epochHeuristicCounter := Max(1, Max(epochSize / 16, epochSize - unused));
      }
    }

    // The first of the element's places that holds it already.
    method Find(e: Element) returns (k: nat)
      requires Shape()
      ensures k <= PLACES && (k < PLACES ==> table[Locs(hash, size, e)[k]] == e)
      ensures forall j | 0 <= j < k :: table[Locs(hash, size, e)[j]] != e
    {
      k := 0;
      while k < PLACES
        invariant k <= PLACES && forall j | 0 <= j < k :: table[Locs(hash, size, e)[j]] != e
      {
        if table[Locs(hash, size, e)[k]] == e {
          return;
        }
        k := k + 1;
      }
    }

    // The first of the given places that is collected.
    method FindCollected(locs: seq<nat>) returns (k: nat)
      requires Shape() && |locs| == PLACES && forall j | 0 <= j < PLACES :: locs[j] < size
      ensures k <= PLACES && (k < PLACES ==> !Cells()[locs[k]].live)
      ensures forall j | 0 <= j < k :: Cells()[locs[j]].live
    {
      hide BitAt;
      k := 0;
      while k < PLACES
        invariant k <= PLACES && forall j | 0 <= j < k :: Cells()[locs[j]].live
      {
        if flags.IsSet(locs[k]) {
          return;
        }
        k := k + 1;
      }
    }

    // The place after the one last looked at; a place not among the eight
    // counts as the ninth.
    method NextPlace(locs: seq<nat>, lastLoc: nat) returns (loc: nat)
      requires |locs| == PLACES
      ensures loc in locs && Follows(locs, lastLoc, loc)
    {
      var k := 0;
      while k < PLACES && locs[k] != lastLoc
        invariant k <= PLACES && lastLoc !in locs[..k]
      {
        k := k + 1;
      }
      assert FirstAt(locs, lastLoc, k);
      loc := locs[(1 + k) % 8];
    }

    // The displacement loop.  It ends in a collected slot, or drops what it
    // has in hand after depthLimit rounds.
    method Displace(e0: Element) returns (ghost lost: Option<Tag<Element>>)
      requires Shape() && AtHome(hash, Cells())
      modifies this`table, this`epochFlags, flags
      ensures Shape() && Landed(hash, old(Cells()), e0, Cells(), lost)
      ensures depthLimit > 0 && lost.Some? ==> AllTaken(hash, old(Cells()), e0)
    {
      hide Landed, InFlight, AtHome, Tally, Locs;
      ghost var c0 := Cells();
      var e, lastEpoch, lastLoc: nat := e0, true, TWO_32 - 1;
      Starts(hash, c0, e0);
      var depth := 0;
      while depth < depthLimit
        invariant Shape() && InFlight(hash, c0, e0, Cells(), e, lastEpoch)
        invariant if depth == 0 then Cells() == c0 && e == e0 else AllTaken(hash, c0, e0) && lastLoc in Locs(hash, size, e)
      {
        var locs := Locs(hash, size, e);
        var k := FindCollected(locs);
        if k < PLACES {
          Lands(hash, c0, e0, Cells(), e, lastEpoch, locs[k]);
          Put(locs[k], e, lastEpoch);
          lost := None;
          return;
        }
        lastLoc := NextPlace(locs, lastLoc);
        Displaces(hash, c0, e0, Cells(), e, lastEpoch, lastLoc);
        e, lastEpoch := Swap(lastLoc, e, lastEpoch);
        depth := depth + 1;
      }
      Drops(hash, c0, e0, Cells(), e, lastEpoch);
      lost := Some(Tag(e, lastEpoch));
    }

    // Inserts an element.  If it is in the table, its slot is kept; otherwise
    // the uncollected elements are those after epoch_check and the new one,
    // less at most one of them.
    method Insert(e: Element) returns (ghost lost: Option<Tag<Element>>)
      requires Valid()
      modifies this`table, this`epochFlags, this`epochHeuristicCounter, flags
      ensures Valid()
      ensures var c0 := Checked(old(Cells()), old(epochHeuristicCounter), epochSize);
              if Present(hash, c0, e) then lost == None && Refreshed(hash, c0, e, Cells())
              else Landed(hash, c0, e, Cells(), lost) && (depthLimit > 0 && lost.Some? ==> forall k | 0 <= k < 8 :: c0[Locs(hash, |c0|, e)[k]].live)
      ensures old(epochHeuristicCounter) > 0 ==> epochHeuristicCounter == old(epochHeuristicCounter) - 1
      ensures Checked(old(Cells()), old(epochHeuristicCounter), epochSize) != old(Cells()) ==> epochHeuristicCounter == epochSize
    {
      hide Landed, AtHome, Tally, Locs, Present, Refreshed, Checked, EpochLimit;
      EpochCheck();
      ghost var c0 := Cells();
      var k := Find(e);
      PresentAt(hash, c0, e, k);
      if k < PLACES {
        var loc := Locs(hash, size, e)[k];
        RefreshKeepsAll(hash, c0, loc, e);
        Put(loc, e, true);
        assert c0[loc].elem == e;
        lost := None;
        return;
      }
      lost := Displace(e);
      LandedKeeps(hash, c0, e, Cells(), lost);
    }

    // Whether an element is in the table; optionally allows its erasure.
    method Contains(e: Element, erase: bool) returns (found: bool)
      requires Valid()
      modifies flags
      ensures Valid() && (found <==> Present(hash, old(Cells()), e))
      ensures IsLive(old(Cells()), e) ==> found
      ensures !(found && erase) ==> Cells() == old(Cells())
      ensures found && erase ==> Collected(hash, old(Cells()), e, Cells())
    {
      hide BitAt, AtHome, Tally, Locs, Present, Collected, EpochLimit;
      ghost var c0 := Cells();
      var k := Find(e);
      PresentAt(hash, c0, e, k);
      LivePresent(hash, c0, e);
      found := k < PLACES;
      if found && erase {
        var loc := Locs(hash, size, e)[k];
        HomeKept(hash, c0, loc, c0[loc].(live := false));
        TallyUpdate(c0, loc, c0[loc].(live := false), Recents());
        TallyUpdate(c0, loc, c0[loc].(live := false), Olds());
        flags.Set(loc);
        assert Cells() == Erased(c0, loc);
      }
    }
  }

  // Index k is that of the first x, or the length if there is none.
  ghost predicate FirstAt(s: seq<nat>, x: nat, k: nat) {
    k <= |s| && x !in s[..k] && (k < |s| ==> s[k] == x)
  }

  // The place after the first one that is lastLoc, in a circle; locs[0] if none is.
  ghost predicate Follows(locs: seq<nat>, lastLoc: nat, loc: nat)
    requires |locs| == PLACES
  {
    exists k: nat | k <= PLACES :: FirstAt(locs, lastLoc, k) && loc == locs[(1 + k) % 8]
  }

  // The element just put in at lastLoc is not the one that is moved next if and
  // only if the place behind the first that is lastLoc is another one.
  lemma NotMovedAgain(locs: seq<nat>, lastLoc: nat, loc: nat, k: nat)
    requires |locs| == PLACES && k < PLACES && FirstAt(locs, lastLoc, k) && Follows(locs, lastLoc, loc)
    ensures loc != lastLoc <==> locs[k] != locs[(k + 1) % 8]
  {
    var j: nat :| j <= PLACES && FirstAt(locs, lastLoc, j) && loc == locs[(1 + j) % 8];
  }

  // An element whose eight hashes agree has one place only, and goes back to it:
  // what was put in there is moved out again.
  lemma MovedAgain<Element>(hash: Hash<Element>, size: nat, e: Element, loc: nat)
    requires size > 0 && forall i | 0 <= i < PLACES :: hash(i, e) == hash(0, e)
    requires Follows(Locs(hash, size, e), Place(hash(0, e), size), loc)
    ensures loc == Place(hash(0, e), size)
  {
    hide Place;
    var locs := Locs(hash, size, e);
    assert FirstAt(locs, locs[0], 0);
    NotMovedAgain(locs, locs[0], loc, 0);
  }

  // No place of the element may be overwritten.
  ghost predicate AllTaken<Element(!new)>(hash: Hash<Element>, cells: seq<Cell<Element>>, e: Element) {
    |cells| > 0 && forall k | 0 <= k < PLACES :: cells[Locs(hash, |cells|, e)[k]].live
  }

  ghost predicate Present<Element(!new)>(hash: Hash<Element>, cells: seq<Cell<Element>>, e: Element) {
    |cells| > 0 && exists k :: 0 <= k < PLACES && cells[Locs(hash, |cells|, e)[k]].elem == e
  }

  // The first place that holds e becomes recent and uncollected.
  ghost predicate Refreshed<Element(!new)>(hash: Hash<Element>, c0: seq<Cell<Element>>, e: Element, cells: seq<Cell<Element>>) {
    |c0| > 0 && exists k :: FirstPlace(hash, c0, e, k) && cells == c0[Locs(hash, |c0|, e)[k] := Cell(e, true, true)]
  }

  function Erased<Element>(c0: seq<Cell<Element>>, loc: nat): seq<Cell<Element>>
    requires loc < |c0|
  {
    c0[loc := c0[loc].(live := false)]
  }

  // The first place that holds e is collected, and nothing else changes.
  ghost predicate Collected<Element(!new)>(hash: Hash<Element>, c0: seq<Cell<Element>>, e: Element, cells: seq<Cell<Element>>) {
    |c0| > 0 && exists k :: FirstPlace(hash, c0, e, k) && cells == Erased(c0, Locs(hash, |c0|, e)[k])
  }

  ghost predicate FirstPlace<Element(!new)>(hash: Hash<Element>, c0: seq<Cell<Element>>, e: Element, k: int)
    requires |c0| > 0
  {
    && 0 <= k < PLACES && c0[Locs(hash, |c0|, e)[k]].elem == e
    && forall j | 0 <= j < k :: c0[Locs(hash, |c0|, e)[j]].elem != e
  }

  lemma PresentAt<Element(!new)>(hash: Hash<Element>, cells: seq<Cell<Element>>, e: Element, k: nat)
    requires |cells| > 0 && k <= PLACES && (k < PLACES ==> cells[Locs(hash, |cells|, e)[k]].elem == e)
    requires forall j | 0 <= j < k :: cells[Locs(hash, |cells|, e)[j]].elem != e
    ensures Present(hash, cells, e) <==> k < PLACES
    ensures k < PLACES ==> FirstPlace(hash, cells, e, k)
    ensures k < PLACES ==> Refreshed(hash, cells, e, cells[Locs(hash, |cells|, e)[k] := Cell(e, true, true)])
    ensures k < PLACES ==> Collected(hash, cells, e, Erased(cells, Locs(hash, |cells|, e)[k]))
  {
    hide Locs;
  }

  lemma LivePresent<Element(!new)>(hash: Hash<Element>, cells: seq<Cell<Element>>, e: Element)
    requires AtHome(hash, cells)
    ensures IsLive(cells, e) ==> Present(hash, cells, e)
  {
    hide Locs;
    if i :| 0 <= i < |cells| && cells[i].live && cells[i].elem == e {
      assert i in Locs(hash, |cells|, e);
    }
  }

  lemma Starts<Element(!new)>(hash: Hash<Element>, c0: seq<Cell<Element>>, e: Element)
    requires AtHome(hash, c0)
    ensures InFlight(hash, c0, e, c0, e, true)
  {
    hide AtHome, Tally;
  }

  lemma LandedKeeps<Element(!new)>(hash: Hash<Element>, c0: seq<Cell<Element>>, e: Element, cells: seq<Cell<Element>>, lost: Option<Tag<Element>>)
    requires Landed(hash, c0, e, cells, lost)
    ensures AtHome(hash, cells)
    ensures Tally(cells, Recents()) <= Tally(c0, Recents()) + 1 && Tally(cells, Olds()) <= Tally(c0, Olds())
  {
    hide AtHome, Tally;
  }

  // ------------------------------------------------------------------- runs

  // The element outlives so many more inserts, unless it is dropped or erased: it
  // is of the current epoch, or that is how long this one lasts at least.
  ghost predicate Safe<Element(!new)>(cells: seq<Cell<Element>>, e: Element, counter: nat, inserts: int) {
    || Tally(cells, Of(Tag(e, true))) > 0
    || (Tally(cells, Of(Tag(e, false))) > 0 && inserts <= counter)
  }

  lemma SafeChecked<Element(!new)>(cells: seq<Cell<Element>>, counter: nat, epochSize: nat, e: Element, inserts: int, counter': nat)
    requires Safe(cells, e, counter, inserts) && 1 <= inserts <= epochSize
    requires counter > 0 ==> counter' == counter - 1
    requires Checked(cells, counter, epochSize) != cells ==> counter' == epochSize
    ensures Safe(Checked(cells, counter, epochSize), e, counter', inserts - 1)
  {
    hide Tally;
    if Checked(cells, counter, epochSize) != cells {
      TallyPositive(cells, Of(Tag(e, true)));
      var i :| 0 <= i < |cells| && Of(Tag(e, true))(cells[i]);
      assert Of(Tag(e, false))(Aged(cells)[i]);
      TallyPositive(Aged(cells), Of(Tag(e, false)));
    }
  }

  lemma SafeLanded<Element(!new)>(hash: Hash<Element>, c0: seq<Cell<Element>>, e0: Element, cells: seq<Cell<Element>>,
                                  lost: Option<Tag<Element>>, e: Element, counter: nat, inserts: int)
    requires Landed(hash, c0, e0, cells, lost) && (lost.Some? ==> lost.value.elem != e)
    requires e0 == e || Safe(c0, e, counter, inserts)
    ensures Safe(cells, e, counter, inserts)
  {
    hide Tally, AtHome;
    var t, f := Of(Tag(e, true)), Of(Tag(e, false));
    assert Tally(cells, t) + B(lost == Some(Tag(e, true))) == Tally(c0, t) + B(Tag(e, true) == Tag(e0, true));
    assert Tally(cells, f) + B(lost == Some(Tag(e, false))) == Tally(c0, f) + B(Tag(e, false) == Tag(e0, true));
  }

  // Only the cells of another element, or that of this one, refreshed.
  lemma SafeUpdated<Element(!new)>(c0: seq<Cell<Element>>, loc: nat, x: Cell<Element>, e: Element, counter: nat, inserts: int)
    requires loc < |c0| && c0[loc].elem == x.elem
    requires x == Cell(e, true, true) || (x.elem != e && Safe(c0, e, counter, inserts))
    ensures Safe(c0[loc := x], e, counter, inserts)
  {
    hide Tally;
    TallyUpdate(c0, loc, x, Of(Tag(e, true)));
    TallyUpdate(c0, loc, x, Of(Tag(e, false)));
    if x == Cell(e, true, true) {
      assert Of(Tag(e, true))(c0[loc := x][loc]);
      TallyPositive(c0[loc := x], Of(Tag(e, true)));
    }
  }

  lemma SafeRefreshed<Element(!new)>(hash: Hash<Element>, c0: seq<Cell<Element>>, e0: Element, cells: seq<Cell<Element>>,
                                     e: Element, counter: nat, inserts: int)
    requires Refreshed(hash, c0, e0, cells) && (e0 == e || Safe(c0, e, counter, inserts))
    ensures Safe(cells, e, counter, inserts)
  {
    hide Tally, Safe, Locs;
    var k :| FirstPlace(hash, c0, e0, k) && cells == c0[Locs(hash, |c0|, e0)[k] := Cell(e0, true, true)];
    SafeUpdated(c0, Locs(hash, |c0|, e0)[k], Cell(e0, true, true), e, counter, inserts);
  }

  lemma SafeCollected<Element(!new)>(hash: Hash<Element>, c0: seq<Cell<Element>>, e0: Element, cells: seq<Cell<Element>>,
                                     e: Element, counter: nat, inserts: int)
    requires Collected(hash, c0, e0, cells) && e0 != e && Safe(c0, e, counter, inserts)
    ensures Safe(cells, e, counter, inserts)
  {
    hide Tally, Safe, Locs;
    var k :| FirstPlace(hash, c0, e0, k) && cells == Erased(c0, Locs(hash, |c0|, e0)[k]);
    var loc := Locs(hash, |c0|, e0)[k];
    SafeUpdated(c0, loc, c0[loc].(live := false), e, counter, inserts);
  }

  lemma SafeIsLive<Element(!new)>(cells: seq<Cell<Element>>, e: Element, counter: nat, inserts: int)
    requires Safe(cells, e, counter, inserts)
    ensures IsLive(cells, e)
  {
    hide Tally, IsLive;
    LiveByTally(cells, e);
  }

  // An insert keeps an element safe for one insert fewer.
  lemma SafeInsert<Element(!new)>(hash: Hash<Element>, c: seq<Cell<Element>>, counter: nat, epochSize: nat, e0: Element,
                                  cells: seq<Cell<Element>>, lost: Option<Tag<Element>>, e: Element, inserts: int, counter': nat)
    requires var c0 := Checked(c, counter, epochSize);
             if Present(hash, c0, e0) then lost == None && Refreshed(hash, c0, e0, cells) else Landed(hash, c0, e0, cells, lost)
    requires counter > 0 ==> counter' == counter - 1
    requires Checked(c, counter, epochSize) != c ==> counter' == epochSize
    requires lost.Some? ==> lost.value.elem != e
    requires e0 == e || (1 <= inserts <= epochSize && Safe(c, e, counter, inserts))
    ensures Safe(cells, e, counter', inserts - 1)
  {
    hide Tally, Safe, Locs, Landed, Refreshed, Present, Checked;
    var c0 := Checked(c, counter, epochSize);
    if e0 != e {
      SafeChecked(c, counter, epochSize, e, inserts, counter');
    }
    if Present(hash, c0, e0) {
      SafeRefreshed(hash, c0, e0, cells, e, counter', inserts - 1);
    } else {
      SafeLanded(hash, c0, e0, cells, lost, e, counter', inserts - 1);
    }
  }

  datatype Op<Element> = DoInsert(e: Element) | DoContains(e: Element, erase: bool)

  // Over every run, every uncollected element can be found, and the current
  // epoch never holds more than epoch_size + max(1, epoch_size / 16) of them.
  method Run<Element(!new, ==)>(cache: Cache<Element>, ops: seq<Op<Element>>)
    requires cache.Valid()
    modifies cache, cache.flags
    ensures cache.Valid() && cache.epochSize == old(cache.epochSize)
    ensures Tally(cache.Cells(), Recents()) <= cache.epochSize + if cache.epochSize < 16 then 1 else cache.epochSize / 16
    ensures cache.size >= 21 && 45 * cache.size < TWO_32 && cache.epochSize == EpochSize(cache.size) ==>
              exists i :: 0 <= i < cache.size && !cache.Cells()[i].live
    ensures forall e :: IsLive(cache.Cells(), e) ==> Present(cache.hash, cache.Cells(), e)
  {
    hide Landed, Tally, Present, Refreshed, Collected, AtHome, IsLive;
    for i := 0 to |ops|
      invariant cache.Valid() && cache.epochSize == old(cache.epochSize)
    {
      match ops[i] {
        case DoInsert(e) =>
          ghost var lost := cache.Insert(e);
        case DoContains(e, erase) =>
          var found := cache.Contains(e, erase);
      }
    }
    if cache.size >= 21 && 45 * cache.size < TWO_32 && cache.epochSize == EpochSize(cache.size) {
      RoomLeft(cache.Cells(), cache.epochSize);
    }
    forall e: Element
      ensures IsLive(cache.Cells(), e) ==> Present(cache.hash, cache.Cells(), e)
    {
      LivePresent(cache.hash, cache.Cells(), e);
    }
  }

  function Inserts<Element>(ops: seq<Op<Element>>): nat {
    if ops == [] then 0 else Inserts(ops[..|ops| - 1]) + if ops[|ops| - 1].DoInsert? then 1 else 0
  }

  // Nothing asks for the element to be erased, and no insert drops it.
  ghost predicate LeftAlone<Element(!new)>(ops: seq<Op<Element>>, lost: seq<Option<Tag<Element>>>, e: Element) {
    && (forall i | 0 <= i < |ops| && ops[i].DoContains? && ops[i].erase :: ops[i].e != e)
    && (forall i | 0 <= i < |lost| && lost[i].Some? :: lost[i].value.elem != e)
  }

  // What is inserted is found again for at least epoch_size further inserts,
  // unless it is erased or dropped.
  method KeptForAnEpoch<Element(!new, ==)>(cache: Cache<Element>, e: Element, ops: seq<Op<Element>>)
    returns (found: bool, ghost lost: seq<Option<Tag<Element>>>)
    requires cache.Valid()
    modifies cache, cache.flags
    ensures cache.Valid() && cache.epochSize == old(cache.epochSize)
    ensures Inserts(ops) <= cache.epochSize && LeftAlone(ops, lost, e) ==> found
  {
    hide Landed, Tally, Present, Refreshed, Collected, AtHome, IsLive, EpochLimit, Safe, Checked;
    ghost var c, counter := cache.Cells(), cache.epochHeuristicCounter;
    ghost var dropped := cache.Insert(e);
    lost := [dropped];
    if LeftAlone([], lost, e) {
      assert lost[0] == dropped;
      SafeInsert(cache.hash, c, counter, cache.epochSize, e, cache.Cells(), dropped, e, cache.epochSize + 1, cache.epochHeuristicCounter);
    }
    for i := 0 to |ops|
      invariant cache.Valid() && cache.epochSize == old(cache.epochSize)
      invariant Inserts(ops[..i]) <= cache.epochSize && LeftAlone(ops[..i], lost, e) ==>
                  Safe(cache.Cells(), e, cache.epochHeuristicCounter, cache.epochSize - Inserts(ops[..i]))
    {
      c, counter := cache.Cells(), cache.epochHeuristicCounter;
      ghost var lost0, hash := lost, cache.hash;
      assert ops[..i + 1][..i] == ops[..i];
      match ops[i] {
        case DoInsert(x) =>
          dropped := cache.Insert(x);
          lost := lost + [dropped];
          if Inserts(ops[..i + 1]) <= cache.epochSize && LeftAlone(ops[..i + 1], lost, e) {
            LeftAloneBefore(ops[..i + 1], lost, e);
            assert lost[..|lost| - 1] == lost0 && lost[|lost| - 1] == dropped;
            SafeInsert(hash, c, counter, cache.epochSize, x, cache.Cells(), dropped, e,
                       cache.epochSize - Inserts(ops[..i]), cache.epochHeuristicCounter);
          }
        case DoContains(x, erase) =>
          var _ := cache.Contains(x, erase);
          if Inserts(ops[..i + 1]) <= cache.epochSize && LeftAlone(ops[..i + 1], lost, e) {
            LeftAloneEarlier(ops[..i + 1], lost, e);
            if cache.Cells() != c {
              assert ops[..i + 1][i] == ops[i];
              SafeCollected(hash, c, x, cache.Cells(), e, counter, cache.epochSize - Inserts(ops[..i]));
            }
          }
      }
    }
    assert ops[..|ops|] == ops;
    if Inserts(ops) <= cache.epochSize && LeftAlone(ops, lost, e) {
      SafeIsLive(cache.Cells(), e, cache.epochHeuristicCounter, cache.epochSize - Inserts(ops));
    }
    found := cache.Contains(e, false);
  }

  lemma LeftAloneEarlier<Element(!new)>(ops: seq<Op<Element>>, lost: seq<Option<Tag<Element>>>, e: Element)
    requires ops != [] && LeftAlone(ops, lost, e)
    ensures LeftAlone(ops[..|ops| - 1], lost, e)
  {
  }

  lemma LeftAloneBefore<Element(!new)>(ops: seq<Op<Element>>, lost: seq<Option<Tag<Element>>>, e: Element)
    requires ops != [] && lost != [] && LeftAlone(ops, lost, e)
    ensures LeftAlone(ops[..|ops| - 1], lost[..|lost| - 1], e)
  {
  }

  lemma {:induction false} AllLiveTally<Element(!new)>(cells: seq<Cell<Element>>)
    requires forall i | 0 <= i < |cells| :: cells[i].live
    ensures Tally(cells, Recents()) + Tally(cells, Olds()) == |cells|
  {
    if cells != [] {
      AllLiveTally(cells[..|cells| - 1]);
    }
  }

  // Two epochs leave room: of 21 slots or more, some are always collected.
  lemma RoomLeft<Element(!new)>(cells: seq<Cell<Element>>, epochSize: nat)
    requires |cells| >= 21 && 45 * |cells| < TWO_32 && epochSize == EpochSize(|cells|)
    requires Tally(cells, Recents()) <= EpochLimit(epochSize) && Tally(cells, Olds()) <= EpochLimit(epochSize)
    ensures exists i :: 0 <= i < |cells| && !cells[i].live
  {
    hide Tally;
    TwoEpochs(|cells|);
    if forall i | 0 <= i < |cells| :: cells[i].live {
      AllLiveTally(cells);
    }
  }

  lemma TwoEpochs(size: nat)
    requires size >= 21 && 45 * size < TWO_32
    ensures 2 * EpochLimit(EpochSize(size)) < size
  {
  }

  // Erasing is lazy: what contains(e, true) found is found again.
  method EraseIsLazy<Element(!new, ==)>(cache: Cache<Element>, e: Element) returns (first: bool, second: bool)
    requires cache.Valid()
    modifies cache.flags
    ensures cache.Valid() && first == second == Present(cache.hash, old(cache.Cells()), e)
  {
    hide Tally, AtHome, IsLive, EpochLimit, Locs;
    ghost var c0 := cache.Cells();
    first := cache.Contains(e, true);
    ErasedPresent(cache.hash, c0, e, cache.Cells());
    second := cache.Contains(e, false);
  }

  lemma ErasedPresent<Element(!new)>(hash: Hash<Element>, c0: seq<Cell<Element>>, e: Element, cells: seq<Cell<Element>>)
    requires cells == c0 || Collected(hash, c0, e, cells)
    ensures Present(hash, c0, e) <==> Present(hash, cells, e)
  {
    hide Locs;
    if Collected(hash, c0, e, cells) {
      var k :| FirstPlace(hash, c0, e, k) && cells == Erased(c0, Locs(hash, |c0|, e)[k]);
      assert |cells| == |c0| && cells[Locs(hash, |cells|, e)[k]].elem == e;
    }
  }
}
