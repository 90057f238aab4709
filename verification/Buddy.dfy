/**
 The buddy allocator's bookkeeping, addresses abstracted to (level, index) blocks.
 Level 0 is the whole region; a block at level `l` has index below 2^l and covers
 2^(depth-l) pages.
 */
module Buddy {
  import opened Powers

  datatype Block = Block(level: nat, index: nat)

  /** The block around `b` one level up; the root is its own parent. */
  function Parent(b: Block): Block
  {
    Block(if b.level == 0 then 0 else b.level - 1, b.index / 2)
  }

  function Left(b: Block): Block { Block(b.level + 1, 2 * b.index) }

  function Right(b: Block): Block { Block(b.level + 1, 2 * b.index + 1) }

  function Sibling(b: Block): Block
  {
    Block(b.level, if b.index % 2 == 0 then b.index + 1 else b.index - 1)
  }

  const ROOT := Block(0, 0)

  /** The block of level `level` around `b`. */
  function Around(b: Block, level: nat): (r: Block)
    requires level <= b.level
    ensures r.level == level
    decreases b.level
  {
    if b.level == level then b else Around(Parent(b), level)
  }

  /** The first block of level `level` inside `b`. */
  function FirstIn(b: Block, level: nat): (r: Block)
    requires level >= b.level
    ensures r.level == level
    decreases level - b.level
  {
    if b.level == level then b else FirstIn(Left(b), level)
  }

  /**
   `free[l]` is the free list of level l, front first; `split` and `merge` are the two
   bitmaps; `owner` maps each page still held by a client to the block it was handed out
   from, so a block's tracker counts the pages that map to it.
   */
  datatype Heap = Heap(
    depth: nat,
    free: seq<seq<nat>>,
    split: set<Block>,
    merge: set<Block>,
    owner: map<nat, Block>)

  function Initial(depth: nat): Heap
  {
    Heap(depth, seq(depth + 1, l => if l == 0 then [0] else []), {}, {}, map[])
  }

  // ----- elementary updates -----

  function Toggle(bits: set<Block>, b: Block): set<Block>
  {
    if b in bits then bits - {b} else bits + {b}
  }

  function PushBack(free: seq<seq<nat>>, b: Block): seq<seq<nat>>
    requires b.level < |free|
  {
    free[b.level := free[b.level] + [b.index]]
  }

  function RemoveFirst(xs: seq<nat>, x: nat): seq<nat>
  {
    if xs == [] then []
    else if xs[0] == x then xs[1..]
    else [xs[0]] + RemoveFirst(xs[1..], x)
  }

  function RemoveFree(free: seq<seq<nat>>, b: Block): seq<seq<nat>>
    requires b.level < |free|
  {
    free[b.level := RemoveFirst(free[b.level], b.index)]
  }

  // ----- allocation -----

  /** The least order from `o` up with 2^order at least `n`. */
  function OrderFrom(o: nat, n: nat): (r: nat)
    ensures r >= o && n <= Pow2(r)
    ensures r == o || Pow2(r - 1) < n
    decreases n - Pow2(o)
  {
    if Pow2(o) >= n then o else OrderFrom(o + 1, n)
  }

  /** The deepest non-empty free list at level `i` or above, -1 when there is none. */
  function FindLevel(free: seq<seq<nat>>, i: int): (r: int)
    requires i < |free|
    ensures -1 <= r
    ensures r >= 0 ==> r <= i && free[r] != []
    ensures forall j :: 0 <= j <= i && r < j ==> free[j] == []
    decreases i + 1
  {
    if i < 0 then -1
    else if free[i] != [] then i
    else FindLevel(free, i - 1)
  }

  /** Split `b` down its left spine until it reaches `level`, freeing the right halves. */
  function SplitDown(s: Heap, b: Block, level: nat): (r: (Heap, Block))
    requires |s.free| == s.depth + 1 && b.level <= level <= s.depth
    ensures r.0.depth == s.depth && r.0.owner == s.owner && |r.0.free| == |s.free| && r.1.level == level
    decreases level - b.level
  {
    if b.level == level then (s, b)
    else
      SplitDown(
        s.(split := Toggle(s.split, b), merge := Toggle(s.merge, b), free := PushBack(s.free, Right(b))),
        Left(b), level)
  }

  function FirstPage(s: Heap, b: Block): nat
    requires b.level <= s.depth
  {
    FirstIn(b, s.depth).index
  }

  function Claim(owner: map<nat, Block>, b: Block, first: nat, n: nat): map<nat, Block>
  {
    if n == 0 then owner else Claim(owner, b, first, n - 1)[first + (n - 1) := b]
  }

  datatype Grant = OutOfMemory | Granted(heap: Heap, block: Block)

  /** Whether taking a block straight from its own list updates the parent's merge bit.
      The code tests that the list is the requested one; the repaired guard does not. */
  predicate UpdatesParent(taken: nat, requested: int, repaired: bool)
  {
    (repaired || taken == requested) && taken > 0
  }

  function Requested(s: Heap, n: nat): int { s.depth - OrderFrom(0, n) }

  function Take(s: Heap, level: nat, requested: int, repaired: bool): Heap
    requires level < |s.free| && s.free[level] != []
  {
    var b := Block(level, s.free[level][0]);
    s.(free := s.free[level := s.free[level][1..]],
       merge := if UpdatesParent(level, requested, repaired) then Toggle(s.merge, Parent(b)) else s.merge)
  }

  function Allocate(s: Heap, n: nat, repaired: bool): Grant
    requires |s.free| == s.depth + 1
  {
    var requested := Requested(s, n);
    var i := FindLevel(s.free, requested);
    if i < 0 then OutOfMemory
    else
      var b := Block(i, s.free[i][0]);
      var (s1, b1) := SplitDown(Take(s, i, requested, repaired), b, requested);
      Granted(s1.(owner := Claim(s1.owner, b1, FirstPage(s, b1), n)), b1)
  }

  // ----- release -----

  /** `freeBlock`'s loop on a block that is on no list and owned by no one. */
  function Release(s: Heap, b: Block): (r: Heap)
    requires |s.free| == s.depth + 1 && b.level <= s.depth
    ensures r.depth == s.depth && r.owner == s.owner && |r.free| == |s.free|
    decreases b.level
  {
    if b.level == 0 then s.(free := PushBack(s.free, b))
    else
      var merge := Toggle(s.merge, Parent(b));
      if Parent(b) in merge then s.(merge := merge, free := PushBack(s.free, b))
      else
        Release(
          s.(merge := merge, split := Toggle(s.split, Parent(b)), free := RemoveFree(s.free, Sibling(b))),
          Parent(b))
  }

  function BlockAt(s: Heap, page: nat, level: nat): Block
    requires level <= s.depth
  {
    Around(Block(s.depth, page), level)
  }

  /** The level just below the deepest split ancestor found scanning from level `n` up. */
  function LevelFrom(s: Heap, page: nat, n: nat): (r: nat)
    requires n <= s.depth
    ensures r <= n
  {
    if n == 0 then 0
    else if BlockAt(s, page, n - 1) in s.split then n
    else LevelFrom(s, page, n - 1)
  }

  function LevelOf(s: Heap, page: nat): nat { LevelFrom(s, page, s.depth) }

  function Held(owner: map<nat, Block>, b: Block): set<nat>
  {
    set p | p in owner && owner[p] == b
  }

  /** Return one page; the last page of a tracker releases the tracker's block. */
  function FreePage(s: Heap, page: nat): Heap
    requires |s.free| == s.depth + 1
    requires page in s.owner ==> s.owner[page].level <= s.depth
  {
    if page !in s.owner then s
    else
      var b := s.owner[page];
      var s1 := s.(owner := s.owner - {page});
      if Held(s1.owner, b) != {} then s1
      else
        var first := FirstPage(s, b);
        Release(s1, BlockAt(s1, first, LevelOf(s1, first)))
  }

  // ----- the invariant -----

  predicate FreeIn(free: seq<seq<nat>>, b: Block)
  {
    b.level < |free| && b.index in free[b.level]
  }

  predicate IsFree(s: Heap, b: Block) { FreeIn(s.free, b) }

  ghost predicate NoDup(xs: seq<nat>)
  {
    forall i, j :: 0 <= i < j < |xs| ==> xs[i] != xs[j]
  }

  ghost predicate Fits(depth: nat, b: Block)
  {
    b.level <= depth && b.index < Pow2(b.level)
  }

  ghost predicate InRange(s: Heap, b: Block) { Fits(s.depth, b) }

  ghost predicate Node(free: seq<seq<nat>>, split: set<Block>, live: set<Block>, b: Block)
  {
    FreeIn(free, b) || b in live || b in split
  }

  ghost predicate Present(s: Heap, live: set<Block>, b: Block) { Node(s.free, s.split, live, b) }

  ghost predicate ListsWellFormed(depth: nat, free: seq<seq<nat>>)
  {
    |free| == depth + 1 && forall l :: 0 <= l <= depth ==> NoDup(free[l])
  }

  ghost predicate ListsOk(s: Heap) { ListsWellFormed(s.depth, s.free) }

  ghost predicate NodesFit(depth: nat, free: seq<seq<nat>>, split: set<Block>, live: set<Block>)
  {
    forall b {:trigger Node(free, split, live, b)} :: Node(free, split, live, b) ==> Fits(depth, b)
  }

  ghost predicate ParentsSplit(free: seq<seq<nat>>, split: set<Block>, live: set<Block>)
  {
    forall b {:trigger Parent(b)} :: Node(free, split, live, b) && b.level > 0 ==> Parent(b) in split
  }

  ghost predicate HalvesPresent(depth: nat, free: seq<seq<nat>>, split: set<Block>, live: set<Block>)
  {
    forall b {:trigger Left(b)} {:trigger Right(b)} :: b in split ==>
      b.level < depth && Node(free, split, live, Left(b)) && Node(free, split, live, Right(b))
  }

  ghost predicate OneKind(free: seq<seq<nat>>, split: set<Block>, live: set<Block>)
  {
    && (forall b {:trigger b in split} :: b in split ==> !FreeIn(free, b) && b !in live)
    && (forall b {:trigger b in live} :: b in live ==> !FreeIn(free, b))
  }

  /** Free, live and split blocks form one binary tree whose leaves are free or live. */
  ghost predicate Tree(depth: nat, free: seq<seq<nat>>, split: set<Block>, live: set<Block>)
  {
    && ListsWellFormed(depth, free)
    && Node(free, split, live, ROOT)
    && NodesFit(depth, free, split, live)
    && ParentsSplit(free, split, live)
    && HalvesPresent(depth, free, split, live)
    && OneKind(free, split, live)
  }

  ghost predicate Tiling(s: Heap, live: set<Block>) { Tree(s.depth, s.free, s.split, live) }

  /** A merge bit is set exactly on a split block with one free half. */
  ghost predicate XorBits(free: seq<seq<nat>>, split: set<Block>, merge: set<Block>)
  {
    forall b {:trigger b in merge} ::
      b in merge <==> b in split && FreeIn(free, Left(b)) != FreeIn(free, Right(b))
  }

  ghost predicate MergeBits(s: Heap) { XorBits(s.free, s.split, s.merge) }

  ghost predicate NoFreeBuddies(free: seq<seq<nat>>, split: set<Block>)
  {
    forall b {:trigger Left(b)} {:trigger Right(b)} :: b in split ==> !(FreeIn(free, Left(b)) && FreeIn(free, Right(b)))
  }

  ghost predicate Coalesced(s: Heap) { NoFreeBuddies(s.free, s.split) }

  function Live(s: Heap): set<Block> { s.owner.Values }

  /** Every held page lies inside the block its tracker names. */
  ghost predicate OwnersOk(s: Heap)
  {
    forall p :: p in s.owner ==>
      s.owner[p].level <= s.depth && BlockAt(s, p, s.owner[p].level) == s.owner[p]
  }

  ghost predicate Partition(s: Heap)
  {
    Tiling(s, Live(s)) && OwnersOk(s)
  }

  ghost predicate Inv(s: Heap)
  {
    Partition(s) && MergeBits(s) && Coalesced(s)
  }
}
