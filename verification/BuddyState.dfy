/** The buddy allocator over addresses: free lists, packed bitmaps and shared page trackers. */
module BuddyState {
  import opened Powers
  import opened Buddy
  import opened BuddyProofs

  /** A bitmap packed into 64-bit words; a word is its 64 bits, lowest first. */
  class BitField {
    const field: array<seq<bool>>
    const size: nat

    ghost predicate Valid()
      reads field
    {
      field.Length == size / 64 + 1 && forall w :: 0 <= w < field.Length ==> |field[w]| == 64
    }

    function CheckBit(index: nat): bool
      requires Valid() && index < size
      reads field
    {
      field[index / 64][index % 64]
    }

    constructor (size: nat)
      ensures Valid() && this.size == size && fresh(field)
      ensures forall i :: 0 <= i < size ==> !CheckBit(i)
    {
      this.size := size;
      field := new seq<bool>[size / 64 + 1](_ => seq(64, _ => false));
    }

    method UpdateBit(index: nat)
      requires Valid() && index < size
      modifies field
      ensures Valid()
      ensures forall i :: 0 <= i < size ==> CheckBit(i) == (if i == index then !old(CheckBit(i)) else old(CheckBit(i)))
    {
      var word := field[index / 64];
      field[index / 64] := word[index % 64 := !word[index % 64]];
    }
  }

  class BlockTracker {
    var numOfPages: nat
    const initialAddr: nat
    ghost const block: Block

    constructor (initialAddr: nat, numOfPages: nat, ghost block: Block)
      ensures this.initialAddr == initialAddr && this.numOfPages == numOfPages && this.block == block
    {
      this.initialAddr, this.numOfPages, this.block := initialAddr, numOfPages, block;
    }

    method RemovePage() returns (last: bool)
      requires numOfPages > 0
      modifies this
      ensures numOfPages == old(numOfPages) - 1 && last == (numOfPages == 0)
    {
      numOfPages := numOfPages - 1;
      last := numOfPages == 0;
    }
  }

  const PAGE: nat := 4096

  /** A block's number in the bitmaps: levels one after the other, left to right. */
  function BitIndex(b: Block): nat { Pow2(b.level) + b.index - 1 }

  function SizeOfLevel(depth: nat, level: nat): (r: nat)
    requires level <= depth
    ensures r > 0
  {
    PAGE * Pow2(depth - level)
  }

  function AddrOf(initial: nat, depth: nat, b: Block): nat
    requires b.level <= depth
  {
    initial + b.index * SizeOfLevel(depth, b.level)
  }

  lemma SizeHalves(depth: nat, level: nat)
    requires level < depth
    ensures SizeOfLevel(depth, level) == 2 * SizeOfLevel(depth, level + 1)
  {
  }

  /** The index the code computes by dividing an address offset by a level's block size. */
  lemma IndexOfAddr(initial: nat, depth: nat, b: Block)
    requires b.level <= depth
    ensures (AddrOf(initial, depth, b) - initial) / SizeOfLevel(depth, b.level) == b.index
  {
    DivModUnique(b.index * SizeOfLevel(depth, b.level), SizeOfLevel(depth, b.level), b.index, 0);
  }

  lemma {:induction false} IndexAround(initial: nat, depth: nat, b: Block, level: nat)
    requires level <= b.level <= depth
    ensures (AddrOf(initial, depth, b) - initial) / SizeOfLevel(depth, level) == Around(b, level).index
    decreases b.level
  {
    if level == b.level {
      IndexOfAddr(initial, depth, b);
    } else {
      var p := Parent(b);
      IndexAround(initial, depth, p, level);
      var size, half := SizeOfLevel(depth, level), SizeOfLevel(depth, b.level);
      SizeHalves(depth, b.level - 1);
      if b.index % 2 == 0 {
        ScaledIndex(b.index / 2, half);
      } else {
        ScaledIndex(b.index / 2, half);
        SizeMultiple(depth, level, b.level - 1);
        OffsetInside(p.index, half, size, Pow2(b.level - 1 - level), 2 * half);
      }
    }
  }

  lemma ScaledIndex(i: nat, half: nat)
    ensures (2 * i) * half == i * (2 * half)
    ensures (2 * i + 1) * half == i * (2 * half) + half
  {
  }

  lemma SizeMultiple(depth: nat, upper: nat, lower: nat)
    requires upper <= lower <= depth
    ensures SizeOfLevel(depth, upper) == Pow2(lower - upper) * SizeOfLevel(depth, lower)
  {
    Pow2Add(lower - upper, depth - lower);
    assert Pow2(depth - upper) == Pow2(lower - upper) * Pow2(depth - lower);
    assert PAGE * (Pow2(lower - upper) * Pow2(depth - lower)) == Pow2(lower - upper) * (PAGE * Pow2(depth - lower));
  }

  /** Moving `d` into a cell of width `step` does not leave the `size`-block around it. */
  lemma OffsetInside(i: nat, d: nat, size: nat, k: nat, step: nat)
    requires step > 0 && k > 0 && size == k * step && d < step
    ensures size > 0 && (i * step + d) / size == (i * step) / size
  {
    DivDiv(i * step + d, step, k);
    DivDiv(i * step, step, k);
    assert step * k == size;
    DivModUnique(i * step, step, i, 0);
    DivModUnique(i * step + d, step, i, d);
  }

  lemma BitIndexInRange(depth: nat, b: Block)
    requires b.level < depth && b.index < Pow2(b.level)
    ensures BitIndex(b) < Pow2(depth)
  {
    Pow2Monotone(b.level + 1, depth);
  }

  lemma BitIndexInjective(b: Block, c: Block)
    requires b.index < Pow2(b.level) && c.index < Pow2(c.level) && BitIndex(b) == BitIndex(c)
    ensures b == c
  {
    if b.level < c.level {
      Pow2Monotone(b.level + 1, c.level);
    } else if c.level < b.level {
      Pow2Monotone(c.level + 1, b.level);
    }
  }

  lemma ChildAddrs(initial: nat, depth: nat, b: Block)
    requires b.level < depth
    ensures AddrOf(initial, depth, Left(b)) == AddrOf(initial, depth, b)
    ensures AddrOf(initial, depth, Right(b)) == AddrOf(initial, depth, b) + SizeOfLevel(depth, b.level + 1)
  {
    SizeHalves(depth, b.level);
    ScaledIndex(b.index, SizeOfLevel(depth, b.level + 1));
  }

  lemma SiblingAddr(initial: nat, depth: nat, b: Block)
    requires 0 < b.level <= depth
    ensures AddrOf(initial, depth, Sibling(b)) == (if b.index % 2 == 0
        then AddrOf(initial, depth, b) + SizeOfLevel(depth, b.level)
        else AddrOf(initial, depth, b) - SizeOfLevel(depth, b.level))
    ensures AddrOf(initial, depth, Parent(b)) ==
        (if b.index % 2 == 0 then AddrOf(initial, depth, b) else AddrOf(initial, depth, Sibling(b)))
  {
    var p := Parent(b);
    ChildAddrs(initial, depth, p);
    assert b == Left(p) || b == Right(p);
  }

  lemma {:induction false} FirstInAddr(initial: nat, depth: nat, b: Block, level: nat)
    requires b.level <= level <= depth
    ensures AddrOf(initial, depth, FirstIn(b, level)) == AddrOf(initial, depth, b)
    decreases level - b.level
  {
    if b.level < level {
      ChildAddrs(initial, depth, b);
      FirstInAddr(initial, depth, Left(b), level);
    }
  }

  lemma AddrInjective(initial: nat, depth: nat, b: Block, c: Block)
    requires b.level == c.level <= depth && AddrOf(initial, depth, b) == AddrOf(initial, depth, c)
    ensures b == c
  {
    IndexOfAddr(initial, depth, b);
    IndexOfAddr(initial, depth, c);
  }

  // ----- what the real lists and bitmaps stand for -----

  ghost predicate ListMatches(initial: nat, depth: nat, level: nat, xs: seq<nat>, indices: seq<nat>)
    requires level <= depth
  {
    && |xs| == |indices|
    && forall j :: 0 <= j < |xs| ==> xs[j] == AddrOf(initial, depth, Block(level, indices[j]))
  }

  ghost predicate ListsMatch(initial: nat, depth: nat, freeList: seq<seq<nat>>, free: seq<seq<nat>>)
  {
    && |freeList| == |free| == depth + 1
    && forall l :: 0 <= l <= depth ==> ListMatches(initial, depth, l, freeList[l], free[l])
  }

  ghost predicate BitsMatch(bits: BitField, depth: nat, blocks: set<Block>)
    reads bits.field
  {
    && bits.Valid() && bits.size == Pow2(depth)
    && (forall b :: b in blocks ==> b.level < depth && b.index < Pow2(b.level))
    && forall b: Block {:trigger b in blocks} :: b.level < depth && b.index < Pow2(b.level) ==>
         BitIndex(b) < bits.size && (b in blocks <==> bits.CheckBit(BitIndex(b)))
  }

  method FlipBlock(bits: BitField, index: nat, ghost depth: nat, ghost b: Block, ghost blocks: set<Block>)
    requires BitsMatch(bits, depth, blocks) && b.level < depth && b.index < Pow2(b.level) && index == BitIndex(b)
    modifies bits.field
    ensures BitsMatch(bits, depth, Toggle(blocks, b))
  {
    BitIndexInRange(depth, b);
    bits.UpdateBit(index);
    forall c: Block | c.level < depth && c.index < Pow2(c.level)
      ensures BitIndex(c) < bits.size && (c in Toggle(blocks, b) <==> bits.CheckBit(BitIndex(c)))
    {
      BitIndexInRange(depth, c);
      assert c in blocks <==> old(bits.CheckBit(BitIndex(c)));
      if BitIndex(c) == BitIndex(b) {
        BitIndexInjective(b, c);
      }
    }
  }

  /** `removeByValue` on one list. */
  method RemoveByValue(xs: seq<nat>, fAddr: nat) returns (ys: seq<nat>, found: bool)
    ensures found == (fAddr in xs)
    ensures ys == RemoveFirst(xs, fAddr)
  {
    hide RemoveFirst;
    var i: nat := 0;
    assert xs[0..] == xs;
    while i < |xs|
      invariant i <= |xs|
      invariant fAddr !in xs[..i]
      invariant RemoveFirst(xs, fAddr) == xs[..i] + RemoveFirst(xs[i..], fAddr)
    {
      RemoveStep(xs, i, fAddr);
      if xs[i] == fAddr {
        return xs[..i] + xs[i + 1..], true;
      }
      i := i + 1;
    }
    RemoveNothing(fAddr);
    assert xs[..i] == xs && xs[i..] == [];
    return xs, false;
  }

  lemma RemoveNothing(x: nat)
    ensures RemoveFirst([], x) == []
  {
  }

  lemma RemoveStep(xs: seq<nat>, i: nat, x: nat)
    requires i < |xs|
    ensures xs[i] == x ==> RemoveFirst(xs[i..], x) == xs[i + 1..]
    ensures xs[i] != x ==> xs[..i] + RemoveFirst(xs[i..], x) == xs[..i + 1] + RemoveFirst(xs[i + 1..], x)
    ensures x !in xs[..i] && xs[i] != x ==> x !in xs[..i + 1]
  {
    assert xs[i..][0] == xs[i] && xs[i..][1..] == xs[i + 1..];
    assert xs[..i + 1] == xs[..i] + [xs[i]];
  }

  lemma {:induction false} RemoveMatches(initial: nat, depth: nat, level: nat, xs: seq<nat>, indices: seq<nat>, x: nat)
    requires level <= depth && ListMatches(initial, depth, level, xs, indices)
    ensures ListMatches(initial, depth, level, RemoveFirst(xs, AddrOf(initial, depth, Block(level, x))), RemoveFirst(indices, x))
  {
    if xs != [] {
      if indices[0] != x && xs[0] == AddrOf(initial, depth, Block(level, x)) {
        AddrInjective(initial, depth, Block(level, indices[0]), Block(level, x));
      }
      RemoveMatches(initial, depth, level, xs[1..], indices[1..], x);
    }
  }

  // ----- the trackers -----

  function PageAddr(initial: nat, page: nat): nat { initial + page * 4096 }

  ghost function Addrs(initial: nat, pages: set<nat>): set<nat>
  {
    set p | p in pages :: PageAddr(initial, p)
  }

  /** Each held page's address leads to the one tracker of its grant, and nothing else is tracked. */
  ghost predicate Pointers(initial: nat, depth: nat, tracking: map<nat, BlockTracker>, owner: map<nat, Block>, trackers: map<Block, BlockTracker>)
  {
    && tracking.Keys == Addrs(initial, owner.Keys)
    && (forall p {:trigger owner[p]} :: p in owner ==>
         && owner[p] in trackers && PageAddr(initial, p) in tracking
         && tracking[PageAddr(initial, p)] == trackers[owner[p]])
    && (forall b {:trigger trackers[b]} :: b in trackers ==>
         b.level <= depth && trackers[b].block == b && trackers[b].initialAddr == AddrOf(initial, depth, b))
  }

  /** A tracker counts the pages of its grant that are still held. */
  ghost predicate Counts(owner: map<nat, Block>, trackers: map<Block, BlockTracker>)
    reads trackers.Values
  {
    forall b {:trigger trackers[b]} :: b in trackers ==> trackers[b].numOfPages == |Held(owner, b)|
  }

  function PagesFrom(block: nat, n: nat): (r: seq<nat>)
    ensures |r| == n && forall j :: 0 <= j < n ==> r[j] == block + j * PAGE
  {
    if n == 0 then [] else PagesFrom(block, n - 1) + [block + (n - 1) * PAGE]
  }

  function Track(tracking: map<nat, BlockTracker>, t: BlockTracker, block: nat, n: nat): map<nat, BlockTracker>
  {
    if n == 0 then tracking else Track(tracking, t, block, n - 1)[block + (n - 1) * PAGE := t]
  }

  ghost predicate Unowned(owner: map<nat, Block>, first: nat, n: nat)
  {
    forall p {:trigger p in owner} :: first <= p < first + n ==> p !in owner
  }

  lemma {:induction false} HeldAfterClaim(owner: map<nat, Block>, b: Block, first: nat, n: nat)
    requires b !in owner.Values && Unowned(owner, first, n)
    ensures |Held(Claim(owner, b, first, n), b)| == n
    ensures forall c :: c != b ==> Held(Claim(owner, b, first, n), c) == Held(owner, c)
  {
    if n == 0 {
      assert Held(owner, b) == {};
    } else {
      HeldAfterClaim(owner, b, first, n - 1);
      ClaimMap(owner, b, first, n - 1);
      HeldAdd(Claim(owner, b, first, n - 1), b, first + (n - 1));
    }
  }

  lemma HeldRemove(owner: map<nat, Block>, p: nat)
    requires p in owner
    ensures var rest := owner - {p};
      && |Held(rest, owner[p])| == |Held(owner, owner[p])| - 1
      && forall c :: c != owner[p] ==> Held(rest, c) == Held(owner, c)
  {
    assert Held(owner, owner[p]) == Held(owner - {p}, owner[p]) + {p};
  }

  lemma HeldPage(owner: map<nat, Block>, p: nat)
    requires p in owner
    ensures |Held(owner, owner[p])| > 0
  {
    assert p in Held(owner, owner[p]);
  }

  lemma TrackersApart(initial: nat, depth: nat, m: map<nat, BlockTracker>, owner: map<nat, Block>, trackers: map<Block, BlockTracker>, b: Block, c: Block)
    requires Pointers(initial, depth, m, owner, trackers) && b in trackers && c in trackers && b != c
    ensures trackers[b] != trackers[c]
  {
    assert trackers[b].block == b && trackers[c].block == c;
  }

  lemma HeldAdd(owner: map<nat, Block>, b: Block, p: nat)
    requires p !in owner
    ensures Held(owner[p := b], b) == Held(owner, b) + {p} && p !in Held(owner, b)
    ensures forall c :: c != b ==> Held(owner[p := b], c) == Held(owner, c)
  {
  }

  lemma PointersAdd(initial: nat, depth: nat, m: map<nat, BlockTracker>, owner: map<nat, Block>,
                    trackers: map<Block, BlockTracker>, b: Block, p: nat)
    requires Pointers(initial, depth, m, owner, trackers) && b in trackers
    ensures Pointers(initial, depth, m[PageAddr(initial, p) := trackers[b]], owner[p := b], trackers)
  {
    assert Addrs(initial, owner[p := b].Keys) == Addrs(initial, owner.Keys) + {PageAddr(initial, p)};
  }

  lemma {:induction false} PointersClaim(initial: nat, depth: nat, m: map<nat, BlockTracker>, owner: map<nat, Block>,
                      trackers: map<Block, BlockTracker>, b: Block, first: nat, n: nat)
    requires Pointers(initial, depth, m, owner, trackers) && b in trackers
    ensures Pointers(initial, depth, Track(m, trackers[b], PageAddr(initial, first), n), Claim(owner, b, first, n), trackers)
  {
    if n > 0 {
      PointersClaim(initial, depth, m, owner, trackers, b, first, n - 1);
      PointersAdd(initial, depth, Track(m, trackers[b], PageAddr(initial, first), n - 1), Claim(owner, b, first, n - 1),
                  trackers, b, first + (n - 1));
      assert PageAddr(initial, first + (n - 1)) == PageAddr(initial, first) + (n - 1) * PAGE;
    }
  }

  lemma PointersNewTracker(initial: nat, depth: nat, m: map<nat, BlockTracker>, owner: map<nat, Block>,
                           trackers: map<Block, BlockTracker>, b: Block, t: BlockTracker)
    requires Pointers(initial, depth, m, owner, trackers) && b !in owner.Values && b.level <= depth
    requires t.block == b && t.initialAddr == AddrOf(initial, depth, b)
    ensures Pointers(initial, depth, m, owner, trackers[b := t])
  {
    forall p | p in owner
      ensures owner[p] in trackers[b := t] && m[PageAddr(initial, p)] == trackers[b := t][owner[p]]
    {
      assert owner[p] in owner.Values;
    }
  }

  lemma PointersUntrack(initial: nat, depth: nat, m: map<nat, BlockTracker>, owner: map<nat, Block>,
                        trackers: map<Block, BlockTracker>, page: nat)
    requires Pointers(initial, depth, m, owner, trackers) && page in owner
    ensures Pointers(initial, depth, m - {PageAddr(initial, page)}, owner - {page}, trackers)
  {
    var owner' := owner - {page};
    assert Addrs(initial, owner'.Keys) == Addrs(initial, owner.Keys) - {PageAddr(initial, page)};
    forall p | p in owner'
      ensures PageAddr(initial, p) in m - {PageAddr(initial, page)} && owner'[p] in trackers
        && (m - {PageAddr(initial, page)})[PageAddr(initial, p)] == trackers[owner'[p]]
    {
      assert owner[p] == owner'[p];
    }
  }

  lemma CountsClaim(owner: map<nat, Block>, trackers: map<Block, BlockTracker>, b: Block, first: nat, n: nat, t: BlockTracker)
    requires Counts(owner, trackers) && b !in owner.Values && Unowned(owner, first, n) && t.numOfPages == n
    ensures Counts(Claim(owner, b, first, n), trackers[b := t])
  {
    HeldAfterClaim(owner, b, first, n);
    var trackers' := trackers[b := t];
    forall c | c in trackers'
      ensures trackers'[c].numOfPages == |Held(Claim(owner, b, first, n), c)|
    {
      if c != b {
        assert trackers'[c] == trackers[c];
      }
    }
  }

  datatype Pages = OutOfMemoryPanic | Pages(addrs: seq<nat>)

  class DeviceBuddyMemoryState {
    var initialAddress: nat
    var storageSize: nat
    var freeList: seq<seq<nat>>
    const bfBlockSplit: BitField
    const bfMergeList: BitField
    var blockTracking: map<nat, BlockTracker>

    ghost var heap: Heap
    ghost var trackers: map<Block, BlockTracker>

    ghost predicate Lists()
      reads this`initialAddress, this`storageSize, this`freeList, this`heap, bfBlockSplit.field, bfMergeList.field
    {
      && storageSize == PAGE * Pow2(heap.depth)
      && ListsMatch(initialAddress, heap.depth, freeList, heap.free)
      && bfBlockSplit.field != bfMergeList.field
      && BitsMatch(bfBlockSplit, heap.depth, heap.split)
      && BitsMatch(bfMergeList, heap.depth, heap.merge)
    }

    ghost predicate Tracked()
      reads this`initialAddress, this`heap, this`blockTracking, this`trackers, trackers.Values
    {
      && Pointers(initialAddress, heap.depth, blockTracking, heap.owner, trackers)
      && Counts(heap.owner, trackers)
    }

    ghost predicate Valid()
      reads this, bfBlockSplit.field, bfMergeList.field, trackers.Values
    {
      Lists() && Tracked()
    }

    lemma ListLengths()
      requires Lists()
      ensures |freeList| == |heap.free| == heap.depth + 1
    {
    }

    /** What the tracker of a held page says. */
    lemma TrackerOf(page: nat)
      requires Tracked() && page in heap.owner
      ensures PageAddr(initialAddress, page) in blockTracking && heap.owner[page] in trackers && heap.owner[page].level <= heap.depth
      ensures blockTracking[PageAddr(initialAddress, page)] == trackers[heap.owner[page]]
      ensures trackers[heap.owner[page]].block == heap.owner[page]
      ensures trackers[heap.owner[page]].initialAddr == AddrOf(initialAddress, heap.depth, heap.owner[page])
      ensures trackers[heap.owner[page]].numOfPages == |Held(heap.owner, heap.owner[page])|
    {
    }

    lemma AddressHeld(addr: nat) returns (page: nat)
      requires Tracked() && addr in blockTracking
      ensures page in heap.owner && addr == PageAddr(initialAddress, page)
    {
      assert addr in Addrs(initialAddress, heap.owner.Keys);
      page :| page in heap.owner && addr == PageAddr(initialAddress, page);
    }

    /** `setStorageSize` and `setInitialAddress` for a region of `PAGE * 2^k` bytes. */
    constructor (addr: nat, size: nat, ghost k: nat)
      requires size == PAGE * Pow2(k)
      ensures Valid() && heap == Initial(k) && initialAddress == addr
    {
      var order := 0;
      while Pow2(order) * PAGE < size
        invariant order <= k
        decreases k - order
      {
        Pow2Monotone(order, k);
        order := order + 1;
      }
      if order < k {
        Pow2Monotone(order + 1, k);
        assert false;
      }
      initialAddress, storageSize := addr, size;
      freeList := seq(order + 1, l => if l == 0 then [addr] else []);
      bfBlockSplit := new BitField(Pow2(order));
      bfMergeList := new BitField(Pow2(order));
      blockTracking := map[];
      trackers := map[];
      heap := Initial(k);
      new;
      assert heap.free[0] == [0];
      EmptyBitsMatch(bfBlockSplit, k);
      EmptyBitsMatch(bfMergeList, k);
    }

    function SizeOf(level: nat): (r: nat)
      requires level < |freeList| && storageSize == PAGE * Pow2(|freeList| - 1)
      reads this`freeList, this`storageSize, this`initialAddress
      ensures r == SizeOfLevel(|freeList| - 1, level)
    {
      LevelSize(|freeList| - 1, level);
      storageSize / Pow2(level)
    }

    function IndexInLevelOf(ptr: nat, level: nat): nat
      requires level < |freeList| && storageSize == PAGE * Pow2(|freeList| - 1) && ptr >= initialAddress
      reads this`freeList, this`storageSize, this`initialAddress
    {
      var size := SizeOf(level);
      DivMod(ptr - initialAddress, size);
      (ptr - initialAddress) / size
    }

    function IndexOfBlock(ptr: nat, level: nat): nat
      requires level < |freeList| && storageSize == PAGE * Pow2(|freeList| - 1) && ptr >= initialAddress
      reads this`freeList, this`storageSize, this`initialAddress
    {
      Pow2(level) + IndexInLevelOf(ptr, level) - 1
    }

    function BuddyOf(addr: nat, level: nat): int
      requires level < |freeList| && storageSize == PAGE * Pow2(|freeList| - 1) && addr >= initialAddress
      reads this`freeList, this`storageSize, this`initialAddress
    {
      if IndexInLevelOf(addr, level) % 2 == 0 then addr + SizeOf(level) else addr - SizeOf(level)
    }

    /** `indexOfBlock` on the address of `b` is the bitmap number of the block around `b`. */
    method IndexOf(addr: nat, level: nat, ghost b: Block) returns (index: nat)
      requires Lists() && level <= b.level <= heap.depth && b.index < Pow2(b.level)
      requires addr == AddrOf(initialAddress, heap.depth, b)
      ensures index == BitIndex(Around(b, level)) && Around(b, level).index < Pow2(level)
      ensures level < heap.depth ==> index < Pow2(heap.depth)
    {
      IndexAround(initialAddress, heap.depth, b, level);
      AroundInRange(b, level);
      index := IndexOfBlock(addr, level);
      if level < heap.depth {
        BitIndexInRange(heap.depth, Around(b, level));
      }
    }

    /** `buddyOf` on the address of `b` is the address of its sibling. */
    method BuddyAddr(addr: nat, level: nat, ghost b: Block) returns (buddy: nat)
      requires Lists() && 0 < b.level == level <= heap.depth && addr == AddrOf(initialAddress, heap.depth, b)
      ensures buddy == AddrOf(initialAddress, heap.depth, Sibling(b))
      ensures AddrOf(initialAddress, heap.depth, Parent(b)) == if buddy < addr then buddy else addr
    {
      IndexOfAddr(initialAddress, heap.depth, b);
      SiblingAddr(initialAddress, heap.depth, b);
      buddy := BuddyOf(addr, level);
    }

    method UpdateSplitBlockBitField(index: nat, ghost b: Block)
      requires Lists() && b.level < heap.depth && b.index < Pow2(b.level) && index == BitIndex(b)
      modifies bfBlockSplit.field, `heap
      ensures Lists() && heap == old(heap).(split := Toggle(old(heap.split), b))
    {
      FlipBlock(bfBlockSplit, index, heap.depth, b, heap.split);
      heap := heap.(split := Toggle(heap.split, b));
    }

    method UpdateMergeListBitField(index: nat, ghost b: Block)
      requires Lists() && b.level < heap.depth && b.index < Pow2(b.level) && index == BitIndex(b)
      modifies bfMergeList.field, `heap
      ensures Lists() && heap == old(heap).(merge := Toggle(old(heap.merge), b))
    {
      FlipBlock(bfMergeList, index, heap.depth, b, heap.merge);
      heap := heap.(merge := Toggle(heap.merge, b));
    }

    method CheckSplit(index: nat, ghost b: Block) returns (isSet: bool)
      requires Lists() && b.level < heap.depth && b.index < Pow2(b.level) && index == BitIndex(b)
      ensures isSet == (b in heap.split)
    {
      BitIndexInRange(heap.depth, b);
      isSet := bfBlockSplit.CheckBit(index);
    }

    method CheckMerge(index: nat, ghost b: Block) returns (isSet: bool)
      requires Lists() && b.level < heap.depth && b.index < Pow2(b.level) && index == BitIndex(b)
      ensures isSet == (b in heap.merge)
    {
      BitIndexInRange(heap.depth, b);
      isSet := bfMergeList.CheckBit(index);
    }

    method PushFreeList(addr: nat, level: nat, ghost b: Block)
      requires Lists() && b.level == level <= heap.depth && addr == AddrOf(initialAddress, heap.depth, b)
      modifies `freeList, `heap
      ensures Lists() && heap == old(heap).(free := PushBack(old(heap.free), b))
    {
      freeList := freeList[level := freeList[level] + [addr]];
      heap := heap.(free := PushBack(heap.free, b));
    }

    /** One turn of the splitting loop: mark the block split and free its right half. */
    method SplitOnce(block: nat, i: nat, ghost b: Block)
      requires Lists() && b.level == i < heap.depth && b.index < Pow2(i)
      requires block == AddrOf(initialAddress, heap.depth, b)
      modifies this`freeList, this`heap, bfBlockSplit.field, bfMergeList.field
      ensures Lists() && heap == old(heap).(
        split := Toggle(old(heap.split), b), merge := Toggle(old(heap.merge), b), free := PushBack(old(heap.free), Right(b)))
    {
      var index := IndexOf(block, i, b);
      UpdateSplitBlockBitField(index, b);
      UpdateMergeListBitField(index, b);
      ChildAddrs(initialAddress, heap.depth, b);
      ChildParent(b);
      var buddy := BuddyAddr(block, i + 1, Left(b));
      PushFreeList(buddy, i + 1, Right(b));
    }

    /** The splitting loop of an allocation: halve `block` from level `i0` down to `level`. */
    method SplitBlock(block: nat, i0: nat, level: nat, ghost b0: Block) returns (ghost b: Block)
      requires Lists() && b0.level == i0 <= level <= heap.depth && b0.index < Pow2(i0)
      requires block == AddrOf(initialAddress, heap.depth, b0)
      modifies this`freeList, this`heap, bfBlockSplit.field, bfMergeList.field
      ensures Lists() && |old(heap.free)| == old(heap.depth) + 1 && (heap, b) == SplitDown(old(heap), b0, level)
      ensures block == AddrOf(initialAddress, heap.depth, b)
    {
      hide ListsMatch, BitsMatch, AddrOf, Toggle, PushBack;
      ListLengths();
      var i := i0;
      b := b0;
      while i < level
        invariant i0 <= i <= level && b.level == i && b.index < Pow2(i)
        invariant Lists() && heap.depth == old(heap.depth) && |heap.free| == heap.depth + 1
        invariant block == AddrOf(initialAddress, heap.depth, b)
        invariant SplitDown(heap, b, level) == SplitDown(old(heap), b0, level)
      {
        ChildAddrs(initialAddress, heap.depth, b);
        ListLengths();
        SplitOnce(block, i, b);
        ListLengths();
        i := i + 1;
        b := Left(b);
      }
    }

    /** The tracking loop of an allocation: every page of the grant gets the grant's tracker. */
    method TrackBlock(block0: nat, numPages: nat, ghost b: Block) returns (pAddrs: seq<nat>, bTracker: BlockTracker)
      modifies this`blockTracking
      ensures fresh(bTracker) && bTracker.initialAddr == block0 && bTracker.numOfPages == numPages && bTracker.block == b
      ensures blockTracking == Track(old(blockTracking), bTracker, block0, numPages)
      ensures pAddrs == PagesFrom(block0, numPages)
    {
      bTracker := new BlockTracker(block0, numPages, b);
      var block := block0;
      pAddrs := [];
      var j := 0;
      while j < numPages
        invariant 0 <= j <= numPages && block == block0 + j * PAGE
        invariant fresh(bTracker) && bTracker.numOfPages == numPages
        invariant pAddrs == PagesFrom(block0, j)
        invariant blockTracking == Track(old(blockTracking), bTracker, block0, j)
      {
        pAddrs := pAddrs + [block];
        blockTracking := blockTracking[block := bTracker];
        block := block + PAGE;
        j := j + 1;
      }
    }

    /** Pop the front block of list `i`, updating the parent's merge bit when the guard says so. */
    method TakeFront(i: nat, requested: nat, repaired: bool) returns (block: nat, ghost b: Block)
      requires Lists() && i <= requested <= heap.depth && heap.free[i] != [] && heap.free[i][0] < Pow2(i)
      modifies this`freeList, this`heap, bfMergeList.field
      ensures Lists() && |old(heap.free)| == old(heap.depth) + 1 && old(heap.free)[i] != []
      ensures heap == Take(old(heap), i, requested, repaired)
      ensures b == Block(i, old(heap.free)[i][0]) && block == AddrOf(initialAddress, heap.depth, b)
    {
      block := freeList[i][0];
      b := Block(i, heap.free[i][0]);
      freeList := freeList[i := freeList[i][1..]];
      heap := heap.(free := heap.free[i := heap.free[i][1..]]);
      if (repaired || i == requested) && i > 0 {
        var index := IndexOf(block, i - 1, b);
        UpdateMergeListBitField(index, Parent(b));
      }
    }

    /** The level a request asks for, and the deepest non-empty list at or above it. */
    method FindList(numPages: nat) returns (level: int, i: int)
      requires Lists() && numPages > 0
      ensures |heap.free| == heap.depth + 1 && level == Requested(heap, numPages)
      ensures if i >= 0 then i == FindLevel(heap.free, level) && freeList[i] != [] else FindLevel(heap.free, level) == -1
    {
      var order := 12;
      Pow12(0);
      while Pow2(order) < numPages * PAGE
        invariant order >= 12 && OrderFrom(0, numPages) == OrderFrom(order - 12, numPages)
        decreases numPages * PAGE - Pow2(order)
      {
        Pow12(order - 12);
        Pow12(order - 11);
        order := order + 1;
      }
      Pow12(order - 12);
      level := |freeList| - 1 - (order - 12);
      i := level;
      while i >= 0 && freeList[i] == []
        invariant i <= level
        invariant FindLevel(heap.free, i) == FindLevel(heap.free, level)
      {
        assert ListMatches(initialAddress, heap.depth, i, freeList[i], heap.free[i]);
        i := i - 1;
      }
      if i >= 0 {
        assert ListMatches(initialAddress, heap.depth, i, freeList[i], heap.free[i]);
      }
    }

    /** Allocate pages for one grant. `repaired` chooses the guard on the parent's merge bit;
        the source is `repaired == false`. The panic of the source is a result here. */
    method AllocateMultiplePages(numPages: nat, repaired: bool) returns (pages: Pages)
      requires Valid() && Partition(heap) && numPages > 0
      modifies this`freeList, this`heap, this`blockTracking, this`trackers, bfBlockSplit.field, bfMergeList.field
      ensures Valid() && Partition(heap) && |old(heap.free)| == old(heap.depth) + 1
      ensures var grant := Allocate(old(heap), numPages, repaired);
        if grant.OutOfMemory? then pages == OutOfMemoryPanic && heap == old(heap)
        else heap == grant.heap && pages == Pages(PagesFrom(AddrOf(initialAddress, heap.depth, grant.block), numPages))
    {
      var level, i := FindList(numPages);
      if i < 0 {
        return OutOfMemoryPanic;
      }
      GrantFacts(heap, numPages, repaired);
      ghost var (u, b) := SplitDown(Take(heap, i, level, repaired), Block(i, heap.free[i][0]), level);
      var addrs := Carve(i, level, numPages, repaired, u, b);
      pages := Pages(addrs);
    }

    /** The part of an allocation after the list has been chosen; `u` and `b` are the heap and
        block the splitting leaves. */
    method Carve(i: nat, level: nat, numPages: nat, repaired: bool, ghost u: Heap, ghost b: Block) returns (addrs: seq<nat>)
      requires Valid() && numPages > 0 && i <= level <= heap.depth && heap.free[i] != [] && heap.free[i][0] < Pow2(i)
      requires (u, b) == SplitDown(Take(heap, i, level, repaired), Block(i, heap.free[i][0]), level)
      requires b !in heap.owner.Values && Unowned(heap.owner, FirstIn(b, heap.depth).index, numPages)
      modifies this`freeList, this`heap, this`blockTracking, this`trackers, bfBlockSplit.field, bfMergeList.field
      ensures Valid() && heap.depth == u.depth == old(heap.depth) && b.level <= u.depth
      ensures heap == u.(owner := Claim(u.owner, b, FirstIn(b, u.depth).index, numPages))
      ensures addrs == PagesFrom(AddrOf(initialAddress, u.depth, b), numPages)
    {
      var block := Cut(i, level, repaired, u, b);
      addrs := GrantBlock(block, numPages, b);
    }

    method Cut(i: nat, level: nat, repaired: bool, ghost u: Heap, ghost b: Block) returns (block: nat)
      requires Lists() && i <= level <= heap.depth && heap.free[i] != [] && heap.free[i][0] < Pow2(i)
      requires (u, b) == SplitDown(Take(heap, i, level, repaired), Block(i, heap.free[i][0]), level)
      modifies this`freeList, this`heap, bfBlockSplit.field, bfMergeList.field
      ensures Lists() && heap == u && heap.depth == old(heap.depth) && heap.owner == old(heap.owner)
      ensures b.level <= heap.depth && block == AddrOf(initialAddress, heap.depth, b)
    {
      ghost var a;
      block, a := TakeFront(i, level, repaired);
      a := SplitBlock(block, i, level, a);
    }

    method GrantBlock(block: nat, numPages: nat, ghost b: Block) returns (addrs: seq<nat>)
      requires Tracked()
      requires numPages > 0 && b.level <= heap.depth && block == AddrOf(initialAddress, heap.depth, b)
      requires b !in heap.owner.Values && Unowned(heap.owner, FirstIn(b, heap.depth).index, numPages)
      modifies this`heap, this`blockTracking, this`trackers
      ensures Tracked()
      ensures heap == old(heap).(owner := Claim(old(heap.owner), b, FirstIn(b, old(heap.depth)).index, numPages))
      ensures addrs == PagesFrom(block, numPages)
    {
      hide Pointers, Counts, Track, Claim, PagesFrom, Unowned;
      var t;
      addrs, t := TrackBlock(block, numPages, b);
      PointersNewTracker(initialAddress, heap.depth, old(blockTracking), heap.owner, trackers, b, t);
      FirstInAddr(initialAddress, heap.depth, b, heap.depth);
      PointersClaim(initialAddress, heap.depth, old(blockTracking), heap.owner, trackers[b := t], b, FirstPage(heap, b), numPages);
      CountsClaim(heap.owner, trackers, b, FirstPage(heap, b), numPages, t);
      heap := heap.(owner := Claim(heap.owner, b, FirstPage(heap, b), numPages));
      trackers := trackers[b := t];
    }

    /** `levelOfBlock`: scan the split bitmap upwards from the deepest level. */
    method LevelOfBlock(addr: nat, ghost page: nat) returns (level: nat)
      requires Lists() && page < Pow2(heap.depth) && addr == PageAddr(initialAddress, page)
      ensures level == LevelOf(heap, page)
    {
      var n := |freeList| - 1;
      while n > 0
        invariant 0 <= n <= heap.depth
        invariant LevelFrom(heap, page, n) == LevelOf(heap, page)
      {
        ghost var x := Block(heap.depth, page);
        var index := IndexOf(addr, n - 1, x);
        var split := CheckSplit(index, Around(x, n - 1));
        if split {
          return n;
        }
        n := n - 1;
      }
      return 0;
    }

    /** One merge of the release loop: unsplit the parent and unlist the buddy. */
    method MergeOnce(addr: nat, level: nat, ghost b: Block) returns (addr': nat)
      requires Lists() && 0 < b.level == level <= heap.depth && b.index < Pow2(level)
      requires addr == AddrOf(initialAddress, heap.depth, b)
      modifies this`freeList, this`heap, bfBlockSplit.field
      ensures Lists() && |old(heap.free)| == old(heap.depth) + 1
      ensures heap == old(heap).(split := Toggle(old(heap.split), Parent(b)), free := RemoveFree(old(heap.free), Sibling(b)))
      ensures addr' == AddrOf(initialAddress, heap.depth, Parent(b))
    {
      var index := IndexOf(addr, level - 1, b);
      UpdateSplitBlockBitField(index, Parent(b));
      var buddy := BuddyAddr(addr, level, b);
      RemoveMatches(initialAddress, heap.depth, level, freeList[level], heap.free[level], Sibling(b).index);
      var ys, found := RemoveByValue(freeList[level], buddy);
      freeList := freeList[level := ys];
      heap := heap.(free := RemoveFree(heap.free, Sibling(b)));
      addr' := if buddy < addr then buddy else addr;
    }

    /** The release loop of `freeBlock`, from the level the block was taken at. */
    method ReleaseBlock(addr0: nat, level0: nat, ghost b0: Block)
      requires Lists() && b0.level == level0 <= heap.depth && b0.index < Pow2(level0)
      requires addr0 == AddrOf(initialAddress, heap.depth, b0)
      modifies this`freeList, this`heap, bfBlockSplit.field, bfMergeList.field
      ensures Lists() && |old(heap.free)| == old(heap.depth) + 1
      ensures heap == Release(old(heap), b0)
    {
      var addr, level := addr0, level0;
      ghost var b := b0;
      while level > 0
        invariant Lists() && heap.depth == old(heap.depth) && b.level == level <= heap.depth && b.index < Pow2(level)
        invariant addr == AddrOf(initialAddress, heap.depth, b)
        invariant Release(heap, b) == Release(old(heap), b0)
      {
        var index := IndexOf(addr, level - 1, b);
        UpdateMergeListBitField(index, Parent(b));
        var taken := CheckMerge(index, Parent(b));
        if taken {
          PushFreeList(addr, level, b);
          return;
        }
        addr := MergeOnce(addr, level, b);
        level := level - 1;
        b := Parent(b);
      }
      PushFreeList(addr, level, b);
    }

    /** `freeBlock` on the first page of block `b`. */
    method FreeBlock(addr: nat, ghost page: nat, ghost b: Block)
      requires Lists() && page < Pow2(heap.depth) && addr == PageAddr(initialAddress, page)
      requires b == BlockAt(heap, page, LevelOf(heap, page)) && FirstPage(heap, b) == page
      modifies this`freeList, this`heap, bfBlockSplit.field, bfMergeList.field
      ensures Lists() && |old(heap.free)| == old(heap.depth) + 1 && b.level <= old(heap.depth)
      ensures heap == Release(old(heap), b)
    {
      var level := LevelOfBlock(addr, page);
      AroundInRange(Block(heap.depth, page), level);
      FirstInAddr(initialAddress, heap.depth, b, heap.depth);
      ReleaseBlock(addr, level, b);
    }

    /** Forget the page's tracker entry and count the page off. */
    method Untrack(addr: nat, ghost page: nat) returns (last: bool)
      requires Tracked()
      requires page in heap.owner && addr == PageAddr(initialAddress, page) && addr in blockTracking
      modifies this`heap, this`blockTracking, blockTracking[addr]
      ensures Tracked()
      ensures heap == old(heap).(owner := old(heap.owner) - {page})
      ensures last == (Held(heap.owner, old(heap.owner)[page]) == {})
    {
      hide Pointers, Held;
      ghost var b := heap.owner[page];
      TrackerOf(page);
      HeldPage(heap.owner, page);
      HeldRemove(heap.owner, page);
      var bt := blockTracking[addr];
      assert bt == trackers[b];
      blockTracking := blockTracking - {addr};
      heap := heap.(owner := heap.owner - {page});
      last := bt.RemovePage();
      PointersUntrack(initialAddress, heap.depth, old(blockTracking), old(heap.owner), trackers, page);
      forall c | c in trackers
        ensures trackers[c].numOfPages == |Held(heap.owner, c)|
      {
        if c != b {
          TrackersApart(initialAddress, heap.depth, blockTracking, heap.owner, trackers, b, c);
          assert trackers[c].numOfPages == old(trackers[c].numOfPages);
        }
      }
    }

    /** `freeBlock` moves no page between trackers. */
    method FreeCounted(addr: nat, ghost page: nat, ghost b: Block)
      requires Valid() && page < Pow2(heap.depth) && addr == PageAddr(initialAddress, page)
      requires b == BlockAt(heap, page, LevelOf(heap, page)) && FirstPage(heap, b) == page
      modifies this`freeList, this`heap, bfBlockSplit.field, bfMergeList.field
      ensures Valid() && |old(heap.free)| == old(heap.depth) + 1 && b.level <= old(heap.depth)
      ensures heap == Release(old(heap), b)
    {
      FreeBlock(addr, page, b);
      assert heap.owner == old(heap.owner) && heap.depth == old(heap.depth);
    }

    /** Take one held page back, given what its grant's block looks like. */
    method ReturnPage(addr: nat, ghost page: nat)
      requires Valid() && page in heap.owner && addr == PageAddr(initialAddress, page) && addr in blockTracking
      requires Releasable(heap, page)
      modifies this`freeList, this`heap, this`blockTracking, bfBlockSplit.field, bfMergeList.field, blockTracking[addr]
      ensures Valid() && |old(heap.free)| == old(heap.depth) + 1
      ensures heap == FreePage(old(heap), page)
    {
      hide ListsMatch, BitsMatch, Pointers, Counts, Held, Release, LevelOf;
      ghost var b, first := heap.owner[page], FirstPage(heap, heap.owner[page]);
      TrackerOf(page);
      ListLengths();
      FirstInAddr(initialAddress, heap.depth, b, heap.depth);
      var bt := blockTracking[addr];
      assert bt.initialAddr == PageAddr(initialAddress, first);
      var last := Untrack(addr, page);
      if last {
        FreeCounted(bt.initialAddr, first, b);
      }
    }

    /** `addSinglePAddr`: return one page; the last page of a grant frees the grant's block.
        An address nobody holds is ignored. */
    method AddSinglePAddr(addr: nat) returns (ghost page: nat)
      requires Valid() && Inv(heap)
      modifies this`freeList, this`heap, this`blockTracking, bfBlockSplit.field, bfMergeList.field, trackers.Values
      ensures Valid() && Inv(heap) && |old(heap.free)| == old(heap.depth) + 1
      ensures addr !in old(blockTracking) ==> heap == old(heap)
      ensures addr in old(blockTracking) ==>
        && addr == PageAddr(initialAddress, page) && page in old(heap.owner) && old(heap.owner)[page].level <= old(heap.depth)
        && heap == FreePage(old(heap), page)
    {
      hide Lists, Pointers, Counts, Inv, FreePage, Releasable;
      ListLengths();
      if addr !in blockTracking {
        return 0;
      }
      page := AddressHeld(addr);
      TrackerOf(page);
      FreePageKeepsInv(heap, page);
      ReleasedBlock(heap, page);
      ReturnPage(addr, page);
    }
  }

  lemma LevelSize(depth: nat, level: nat)
    requires level <= depth
    ensures (PAGE * Pow2(depth)) / Pow2(level) == SizeOfLevel(depth, level)
  {
    Pow2Add(level, depth - level);
    Regroup(PAGE, Pow2(level), Pow2(depth - level));
    DivModUnique(PAGE * Pow2(depth), Pow2(level), SizeOfLevel(depth, level), 0);
  }

  lemma Pow12(o: nat)
    ensures Pow2(o + 12) == PAGE * Pow2(o)
  {
    Pow2Add(o, 12);
    assert Pow2(12) == 4096 by {
      assert Pow2(4) == 16 && Pow2(8) == 256 by { Pow2Add(4, 4); }
      Pow2Add(4, 8);
    }
  }

  /** What `freeBlock` finds when the last page of a grant comes back. */
  ghost predicate Releasable(s: Heap, page: nat)
    requires page in s.owner
  {
    var b := s.owner[page];
    && b.level <= s.depth && FirstPage(s, b) < Pow2(s.depth)
    && var s1 := s.(owner := s.owner - {page});
    && BlockAt(s1, FirstPage(s, b), LevelOf(s1, FirstPage(s, b))) == b
  }

  lemma ReleasedBlock(s: Heap, page: nat)
    requires Inv(s) && page in s.owner
    ensures Releasable(s, page)
  {
    var b := s.owner[page];
    assert b in s.owner.Values;
    assert Present(s, Live(s), b);
    PagesOfBlock(b, s.depth, 0);
    LevelRecovered(s, Live(s), b, FirstPage(s, b), s.depth);
    LevelIgnoresOwner(s, s.(owner := s.owner - {page}), FirstPage(s, b), s.depth);
    FirstInFits(s.depth, b);
  }

  lemma {:induction false} LevelIgnoresOwner(s: Heap, t: Heap, page: nat, n: nat)
    requires t.depth == s.depth && t.split == s.split && n <= s.depth
    ensures LevelFrom(t, page, n) == LevelFrom(s, page, n)
  {
    if n > 0 {
      LevelIgnoresOwner(s, t, page, n - 1);
    }
  }

  lemma {:induction false} FirstInFits(depth: nat, b: Block)
    requires Fits(depth, b)
    ensures FirstIn(b, depth).index < Pow2(depth)
    decreases depth - b.level
  {
    if b.level < depth {
      FirstInFits(depth, Left(b));
    }
  }

  lemma GrantFacts(s: Heap, n: nat, repaired: bool)
    requires Partition(s) && n > 0 && Allocate(s, n, repaired).Granted?
    ensures var i, Granted(t, b) := FindLevel(s.free, Requested(s, n)), Allocate(s, n, repaired);
      && s.free[i][0] < Pow2(i) && Partition(t)
      && b !in s.owner.Values && b.level <= s.depth && Unowned(s.owner, FirstIn(b, s.depth).index, n)
  {
    var i := FindLevel(s.free, Requested(s, n));
    AllocateKeepsPartition(s, n, repaired);
    UnownedFresh(s, Allocate(s, n, repaired).block, n);
    assert IsFree(s, Block(i, s.free[i][0]));
    assert Present(s, Live(s), Block(i, s.free[i][0]));
  }

  lemma UnownedFresh(s: Heap, b: Block, n: nat)
    requires b.level <= s.depth && FreshPages(s, b, n)
    ensures Unowned(s.owner, FirstIn(b, s.depth).index, n)
  {
    forall p | FirstIn(b, s.depth).index <= p < FirstIn(b, s.depth).index + n
      ensures p !in s.owner
    {
      assert Covers(s.depth, b, p) && p !in s.owner;
    }
  }

  lemma Regroup(a: nat, b: nat, c: nat)
    ensures a * (b * c) == (a * c) * b
  {
  }

  lemma EmptyBitsMatch(bits: BitField, depth: nat)
    requires bits.Valid() && bits.size == Pow2(depth) && forall i :: 0 <= i < bits.size ==> !bits.CheckBit(i)
    ensures BitsMatch(bits, depth, {})
  {
    forall b: Block | b.level < depth && b.index < Pow2(b.level)
      ensures BitIndex(b) < bits.size
    {
      BitIndexInRange(depth, b);
    }
  }
}
