/** The buddy allocator's invariant over every step and every run. */
module BuddyProofs {
  import opened Powers
  import opened Buddy

  // ----- free lists as sets -----

  lemma {:induction false} RemoveFirstElements(xs: seq<nat>, x: nat)
    requires NoDup(xs)
    ensures NoDup(RemoveFirst(xs, x))
    ensures forall y :: y in RemoveFirst(xs, x) <==> y in xs && y != x
  {
    if xs == [] {
    } else {
      var tail := xs[1..];
      assert forall y :: y in xs <==> y == xs[0] || y in tail;
      assert xs[0] !in tail;
      RemoveFirstElements(tail, x);
      if xs[0] != x {
        var ys := RemoveFirst(tail, x);
        assert xs[0] !in ys;
        assert NoDup([xs[0]] + ys);
      }
    }
  }

  lemma PushFree(depth: nat, free: seq<seq<nat>>, b: Block)
    requires ListsWellFormed(depth, free) && b.level <= depth && !FreeIn(free, b)
    ensures ListsWellFormed(depth, PushBack(free, b))
    ensures forall c {:trigger FreeIn(PushBack(free, b), c)} :: FreeIn(PushBack(free, b), c) <==> FreeIn(free, c) || c == b
  {
  }

  lemma DropFree(depth: nat, free: seq<seq<nat>>, b: Block)
    requires ListsWellFormed(depth, free) && b.level <= depth
    ensures ListsWellFormed(depth, RemoveFree(free, b))
    ensures forall c {:trigger FreeIn(RemoveFree(free, b), c)} :: FreeIn(RemoveFree(free, b), c) <==> FreeIn(free, c) && c != b
  {
    RemoveFirstElements(free[b.level], b.index);
    forall c
      ensures FreeIn(RemoveFree(free, b), c) <==> FreeIn(free, c) && c != b
    {
      if c.level == b.level {
        assert c == b <==> c.index == b.index;
      }
    }
  }

  // ----- the four elementary steps; `live` holds the block in hand -----

  lemma ParentSibling(b: Block)
    requires b.level > 0
    ensures Sibling(b) != b && Sibling(b).level == b.level
    ensures (b == Left(Parent(b)) && Sibling(b) == Right(Parent(b))) || (b == Right(Parent(b)) && Sibling(b) == Left(Parent(b)))
    ensures Parent(Sibling(b)) == Parent(b)
  {
  }

  lemma SameParent(b: Block, c: Block)
    requires b.level > 0 && c.level > 0 && Parent(c) == Parent(b)
    ensures c == b || c == Sibling(b)
  {
    assert c.index / 2 == b.index / 2;
  }

  lemma ChildParent(b: Block)
    ensures Parent(Left(b)) == b && Parent(Right(b)) == b && Left(b) != Right(b)
    ensures Sibling(Left(b)) == Right(b) && Sibling(Right(b)) == Left(b)
  {
  }

  /** Taking a free block in hand. */
  lemma TakeTree(depth: nat, free: seq<seq<nat>>, split: set<Block>, live: set<Block>, b: Block)
    requires Tree(depth, free, split, live) && FreeIn(free, b)
    ensures Fits(depth, b) && b !in live && b !in split
    ensures Tree(depth, RemoveFree(free, b), split, live + {b})
  {
    var free', live' := RemoveFree(free, b), live + {b};
    assert Node(free, split, live, b);
    DropFree(depth, free, b);
    assert forall c {:trigger Node(free', split, live', c)} :: Node(free', split, live', c) <==> Node(free, split, live, c);
    NodesSame(depth, free, split, live, free', live');
  }

  /** Relabelling leaves as free or live keeps the tree. */
  lemma NodesSame(depth: nat, free: seq<seq<nat>>, split: set<Block>, live: set<Block>, free': seq<seq<nat>>, live': set<Block>)
    requires Tree(depth, free, split, live) && ListsWellFormed(depth, free')
    requires forall c {:trigger Node(free', split, live', c)} :: Node(free', split, live', c) <==> Node(free, split, live, c)
    requires forall c {:trigger c in split} :: c in split ==> !FreeIn(free', c) && c !in live'
    requires forall c {:trigger c in live'} :: c in live' ==> !FreeIn(free', c)
    ensures Tree(depth, free', split, live')
  {
    assert HalvesPresent(depth, free', split, live') by {
      forall c | c in split
        ensures c.level < depth && Node(free', split, live', Left(c)) && Node(free', split, live', Right(c))
      {
        assert Node(free, split, live, Left(c)) && Node(free, split, live, Right(c));
      }
    }
    assert NodesFit(depth, free', split, live') by {
      forall c | Node(free', split, live', c)
        ensures Fits(depth, c)
      {
        assert Node(free, split, live, c);
      }
    }
    assert ParentsSplit(free', split, live') by {
      forall c | Node(free', split, live', c) && c.level > 0
        ensures Parent(c) in split
      {
        assert Node(free, split, live, c);
      }
    }
    assert Node(free', split, live', ROOT);
  }

  lemma TakeBits(depth: nat, free: seq<seq<nat>>, split: set<Block>, live: set<Block>, merge: set<Block>, b: Block)
    requires Tree(depth, free, split, live) && XorBits(free, split, merge) && NoFreeBuddies(free, split) && FreeIn(free, b)
    requires b.level <= depth
    ensures NoFreeBuddies(RemoveFree(free, b), split)
    ensures b.level == 0 ==> XorBits(RemoveFree(free, b), split, merge)
    ensures b.level > 0 ==> XorBits(RemoveFree(free, b), split, Toggle(merge, Parent(b)))
    ensures b.level > 0 ==> Parent(b) in merge && !FreeIn(free, Sibling(b))
  {
    var free' := RemoveFree(free, b);
    DropFree(depth, free, b);
    forall c | c in split
      ensures !(FreeIn(free', Left(c)) && FreeIn(free', Right(c)))
    {
      assert !(FreeIn(free, Left(c)) && FreeIn(free, Right(c)));
    }
    if b.level > 0 {
      var p := Parent(b);
      ParentSibling(b);
      assert Node(free, split, live, b) && p in split;
      assert !(FreeIn(free, Left(p)) && FreeIn(free, Right(p)));
      OtherBits(free, free', split, merge, p, b);
    } else {
      OtherBits(free, free', split, merge, ROOT, b);
    }
  }

  /** Changing the freeness of `b` alone matters to the merge bit of its parent `p` alone. */
  lemma OtherBits(free: seq<seq<nat>>, free': seq<seq<nat>>, split: set<Block>, merge: set<Block>, p: Block, b: Block)
    requires forall c {:trigger FreeIn(free', c)} :: c != b ==> (FreeIn(free', c) <==> FreeIn(free, c))
    requires b.level == 0 || p == Parent(b)
    ensures forall c {:trigger Left(c)} {:trigger Right(c)} :: c != p || b.level == 0 ==>
      (FreeIn(free', Left(c)) <==> FreeIn(free, Left(c))) && (FreeIn(free', Right(c)) <==> FreeIn(free, Right(c)))
  {
    forall c | c != p || b.level == 0
      ensures (FreeIn(free', Left(c)) <==> FreeIn(free, Left(c))) && (FreeIn(free', Right(c)) <==> FreeIn(free, Right(c)))
    {
      ChildParent(c);
    }
  }

  lemma SplitFresh(depth: nat, free: seq<seq<nat>>, split: set<Block>, live: set<Block>, b: Block)
    requires Tree(depth, free, split, live) && b in live
    ensures Fits(depth, b) && b !in split && !Node(free, split, live, Left(b)) && !Node(free, split, live, Right(b))
  {
    ChildParent(b);
    assert Node(free, split, live, b) && b !in split;
    assert Parent(Left(b)) == b && Parent(Right(b)) == b;
  }

  /** Two new nodes under a leaf that becomes split keep the tree. */
  lemma NodesGrow(depth: nat, free: seq<seq<nat>>, split: set<Block>, live: set<Block>, b: Block, free': seq<seq<nat>>, live': set<Block>, split': set<Block>)
    requires split' == split + {b}
    requires Tree(depth, free, split, live) && Fits(depth, b) && b.level < depth && ListsWellFormed(depth, free')
    requires Node(free, split, live, b) && b !in split && !FreeIn(free', b) && b !in live'
    requires forall c {:trigger Node(free', split', live', c)} ::
      Node(free', split', live', c) <==> Node(free, split, live, c) || c == Left(b) || c == Right(b)
    requires forall c {:trigger c in split} :: c in split ==> !FreeIn(free', c) && c !in live'
    requires forall c {:trigger c in live'} :: c in live' ==> !FreeIn(free', c)
    ensures Tree(depth, free', split', live')
  {
    assert HalvesPresent(depth, free', split', live') by {
      forall c | c in split'
        ensures c.level < depth && Node(free', split', live', Left(c)) && Node(free', split', live', Right(c))
      {
        if c != b {
          assert c in split;
          assert Node(free, split, live, Left(c)) && Node(free, split, live, Right(c));
        }
      }
    }
    assert NodesFit(depth, free', split', live') by {
      forall c | Node(free', split', live', c)
        ensures Fits(depth, c)
      {
        ChildParent(b);
      }
    }
    assert ParentsSplit(free', split', live') by {
      forall c | Node(free', split', live', c) && c.level > 0
        ensures Parent(c) in split'
      {
        ChildParent(b);
      }
    }
    assert Node(free', split', live', ROOT);
  }

  /** Splitting the block in hand and freeing its right half. */
  lemma SplitTree(depth: nat, free: seq<seq<nat>>, split: set<Block>, live: set<Block>, b: Block)
    requires Tree(depth, free, split, live) && b in live && b.level < depth
    ensures b !in split && !Node(free, split, live, Left(b)) && !Node(free, split, live, Right(b))
    ensures Tree(depth, PushBack(free, Right(b)), split + {b}, live - {b} + {Left(b)})
  {
    var r := Right(b);
    SplitFresh(depth, free, split, live, b);
    PushFree(depth, free, r);
    var free', live' := PushBack(free, r), live - {b} + {Left(b)};
    assert Left(b) != r;
    NodesGrow(depth, free, split, live, b, free', live', split + {b});
  }

  lemma SplitBits(depth: nat, free: seq<seq<nat>>, split: set<Block>, live: set<Block>, merge: set<Block>, b: Block)
    requires Tree(depth, free, split, live) && b in live && b.level < depth
    ensures XorBits(free, split, merge) ==> XorBits(PushBack(free, Right(b)), split + {b}, Toggle(merge, b))
    ensures NoFreeBuddies(free, split) ==> NoFreeBuddies(PushBack(free, Right(b)), split + {b})
  {
    var l, r := Left(b), Right(b);
    var free', split' := PushBack(free, r), split + {b};
    SplitTree(depth, free, split, live, b);
    PushFree(depth, free, r);
    ChildParent(b);
    OtherBits(free, free', split, merge, b, r);
    assert FreeIn(free', r) && !FreeIn(free', l);
    if NoFreeBuddies(free, split) {
      forall c | c in split'
        ensures !(FreeIn(free', Left(c)) && FreeIn(free', Right(c)))
      {
        if c != b {
          assert !(FreeIn(free, Left(c)) && FreeIn(free, Right(c)));
        }
      }
    }
    if XorBits(free, split, merge) {
      assert b !in merge;
      forall c
        ensures c in Toggle(merge, b) <==> c in split' && FreeIn(free', Left(c)) != FreeIn(free', Right(c))
      {
        assert c in merge <==> c in split && FreeIn(free, Left(c)) != FreeIn(free, Right(c));
      }
    }
  }

  /** Putting the block in hand on its free list. */
  lemma PutTree(depth: nat, free: seq<seq<nat>>, split: set<Block>, live: set<Block>, b: Block)
    requires Tree(depth, free, split, live) && b in live && b.level <= depth
    ensures Tree(depth, PushBack(free, b), split, live - {b})
  {
    var free', live' := PushBack(free, b), live - {b};
    assert Node(free, split, live, b) && b !in split;
    PushFree(depth, free, b);
    assert forall c {:trigger Node(free', split, live', c)} :: Node(free', split, live', c) <==> Node(free, split, live, c);
    NodesSame(depth, free, split, live, free', live');
  }

  lemma PutBits(depth: nat, free: seq<seq<nat>>, split: set<Block>, live: set<Block>, merge: set<Block>, b: Block)
    requires Tree(depth, free, split, live) && XorBits(free, split, merge) && NoFreeBuddies(free, split) && b in live && b.level <= depth
    requires b.level > 0 ==> !FreeIn(free, Sibling(b))
    ensures NoFreeBuddies(PushBack(free, b), split)
    ensures XorBits(PushBack(free, b), split, if b.level == 0 then merge else Toggle(merge, Parent(b)))
  {
    var free' := PushBack(free, b);
    assert Node(free, split, live, b) && b !in split;
    PushFree(depth, free, b);
    var p := if b.level == 0 then ROOT else Parent(b);
    OtherBits(free, free', split, merge, p, b);
    if b.level > 0 {
      ParentSibling(b);
      assert p in split && p !in merge;
    }
    forall c | c in split
      ensures !(FreeIn(free', Left(c)) && FreeIn(free', Right(c)))
    {
      assert !(FreeIn(free, Left(c)) && FreeIn(free, Right(c)));
    }
    var merge' := if b.level == 0 then merge else Toggle(merge, Parent(b));
    forall c
      ensures c in merge' <==> c in split && FreeIn(free', Left(c)) != FreeIn(free', Right(c))
    {
      assert c in merge <==> c in split && FreeIn(free, Left(c)) != FreeIn(free, Right(c));
    }
  }

  lemma MergeFacts(depth: nat, free: seq<seq<nat>>, split: set<Block>, live: set<Block>, b: Block)
    requires Tree(depth, free, split, live) && b in live && b.level > 0 && FreeIn(free, Sibling(b))
    ensures var p, q := Parent(b), Sibling(b);
      && p in split && p !in live && !FreeIn(free, p) && Node(free, split, live, p)
      && b !in split && q !in split && q !in live && b != q
      && Node(free, split, live, b) && Node(free, split, live, q)
  {
    ParentSibling(b);
    assert Node(free, split, live, b) && Node(free, split, live, Sibling(b));
    assert Parent(b) in split;
    assert Node(free, split, live, Parent(b));
  }

  /** Dropping both halves of a split node that becomes a leaf keeps the tree. */
  lemma NodesShrink(depth: nat, free: seq<seq<nat>>, split: set<Block>, live: set<Block>, b: Block, free': seq<seq<nat>>, live': set<Block>)
    requires Tree(depth, free, split, live) && b.level > 0 && ListsWellFormed(depth, free')
    requires Parent(b) in split && b !in split && Sibling(b) !in split && Node(free, split, live, b)
    requires forall c {:trigger Node(free', split - {Parent(b)}, live', c)} ::
      Node(free', split - {Parent(b)}, live', c) <==> Node(free, split, live, c) && c != b && c != Sibling(b)
    requires forall c {:trigger c in split} :: c in split && c != Parent(b) ==> !FreeIn(free', c) && c !in live'
    requires forall c {:trigger c in live'} :: c in live' ==> !FreeIn(free', c)
    ensures Tree(depth, free', split - {Parent(b)}, live')
  {
    var split' := split - {Parent(b)};
    ParentSibling(b);
    assert HalvesPresent(depth, free', split', live') by {
      forall c | c in split'
        ensures c.level < depth && Node(free', split', live', Left(c)) && Node(free', split', live', Right(c))
      {
        ChildParent(c);
        assert Node(free, split, live, Left(c)) && Node(free, split, live, Right(c));
      }
    }
    assert NodesFit(depth, free', split', live') by {
      forall c | Node(free', split', live', c)
        ensures Fits(depth, c)
      {
        if c.level > 0 && Parent(c) == Parent(b) {
          SameParent(b, c);
        }
      }
    }
    assert ParentsSplit(free', split', live') by {
      forall c | Node(free', split', live', c) && c.level > 0
        ensures Parent(c) in split'
      {
        if c.level > 0 && Parent(c) == Parent(b) {
          SameParent(b, c);
        }
      }
    }
    assert Node(free, split, live, ROOT) && Node(free', split', live', ROOT);
  }

  /** Merging the block in hand with its free sibling. */
  lemma MergeTree(depth: nat, free: seq<seq<nat>>, split: set<Block>, live: set<Block>, b: Block)
    requires Tree(depth, free, split, live) && b in live && 0 < b.level <= depth && FreeIn(free, Sibling(b))
    ensures Parent(b) in split && Parent(b) !in live
    ensures Tree(depth, RemoveFree(free, Sibling(b)), split - {Parent(b)}, live - {b} + {Parent(b)})
  {
    var free', live' := RemoveFree(free, Sibling(b)), live - {b} + {Parent(b)};
    MergeFacts(depth, free, split, live, b);
    DropFree(depth, free, Sibling(b));
    NodesShrink(depth, free, split, live, b, free', live');
  }

  lemma MergeBitsStep(depth: nat, free: seq<seq<nat>>, split: set<Block>, live: set<Block>, merge: set<Block>, b: Block)
    requires Tree(depth, free, split, live) && XorBits(free, split, merge) && NoFreeBuddies(free, split)
    requires b in live && 0 < b.level <= depth && FreeIn(free, Sibling(b))
    ensures NoFreeBuddies(RemoveFree(free, Sibling(b)), split - {Parent(b)})
    ensures XorBits(RemoveFree(free, Sibling(b)), split - {Parent(b)}, Toggle(merge, Parent(b)))
  {
    var p, q := Parent(b), Sibling(b);
    var free', split' := RemoveFree(free, q), split - {p};
    ParentSibling(b);
    assert Node(free, split, live, b) && p in split;
    DropFree(depth, free, q);
    OtherBits(free, free', split, merge, p, q);
    assert p in merge;
    forall c | c in split'
      ensures !(FreeIn(free', Left(c)) && FreeIn(free', Right(c)))
    {
      assert !(FreeIn(free, Left(c)) && FreeIn(free, Right(c)));
    }
    forall c
      ensures c in Toggle(merge, p) <==> c in split' && FreeIn(free', Left(c)) != FreeIn(free', Right(c))
    {
      assert c in merge <==> c in split && FreeIn(free, Left(c)) != FreeIn(free, Right(c));
    }
  }

  // ----- ancestors and pages -----

  lemma {:induction false} AroundAround(b: Block, m: nat, l: nat)
    requires l <= m <= b.level
    ensures Around(Around(b, m), l) == Around(b, l)
    decreases b.level
  {
    if b.level > m {
      AroundAround(Parent(b), m, l);
    }
  }

  lemma AroundParent(b: Block, l: nat)
    requires l < b.level
    ensures Around(b, l) == Parent(Around(b, l + 1))
  {
    AroundAround(b, l + 1, l);
  }

  lemma {:induction false} AroundInRange(b: Block, l: nat)
    requires l <= b.level && b.index < Pow2(b.level)
    ensures Around(b, l).index < Pow2(l)
    decreases b.level
  {
    if b.level > l {
      AroundInRange(Parent(b), l);
    }
  }

  lemma {:induction false} FirstInNext(l: nat, i: nat, d: nat)
    requires l <= d
    ensures FirstIn(Block(l, i + 1), d).index == FirstIn(Block(l, i), d).index + Pow2(d - l)
    decreases d - l
  {
    if l < d {
      FirstInNext(l + 1, 2 * i, d);
      FirstInNext(l + 1, 2 * i + 1, d);
    }
  }

  /** The pages of a block are the 2^(depth-level) pages from its first one. */
  lemma {:induction false} PagesOfBlock(b: Block, d: nat, j: nat)
    requires b.level <= d && j < Pow2(d - b.level)
    ensures Around(Block(d, FirstIn(b, d).index + j), b.level) == b
    decreases d - b.level
  {
    if b.level < d {
      var half := Pow2(d - b.level - 1);
      ChildParent(b);
      var x := Block(d, FirstIn(b, d).index + j);
      if j < half {
        PagesOfBlock(Left(b), d, j);
      } else {
        FirstInNext(b.level + 1, 2 * b.index, d);
        PagesOfBlock(Right(b), d, j - half);
      }
      AroundParent(x, b.level);
    }
  }

  /** Every proper ancestor of a block of the tree is split. */
  lemma {:induction false} AncestorSplit(s: Heap, live: set<Block>, b: Block, l: nat)
    requires Tiling(s, live) && Present(s, live, b) && l < b.level
    ensures Around(b, l) in s.split
    decreases b.level
  {
    assert Parent(b) in s.split;
    if l < b.level - 1 {
      AncestorSplit(s, live, Parent(b), l);
    }
  }

  ghost predicate Leaf(s: Heap, live: set<Block>, b: Block)
  {
    IsFree(s, b) || b in live
  }

  ghost predicate Covers(depth: nat, b: Block, page: nat)
  {
    b.level <= depth && Around(Block(depth, page), b.level) == b
  }

  lemma {:induction false} CoverBelow(s: Heap, live: set<Block>, b: Block, page: nat) returns (c: Block)
    requires Tiling(s, live) && Present(s, live, b) && Covers(s.depth, b, page)
    ensures Leaf(s, live, c) && Covers(s.depth, c, page)
    decreases s.depth - b.level
  {
    if Leaf(s, live, b) {
      c := b;
    } else {
      assert b in s.split;
      assert Present(s, live, Left(b)) && Present(s, live, Right(b));
      var child := BlockAt(s, page, b.level + 1);
      AroundParent(Block(s.depth, page), b.level);
      assert Parent(child) == b;
      assert child == Left(b) || child == Right(b);
      c := CoverBelow(s, live, child, page);
    }
  }

  lemma CoverUnique(s: Heap, live: set<Block>, b: Block, c: Block, page: nat)
    requires Tiling(s, live) && Leaf(s, live, b) && Leaf(s, live, c)
    requires Covers(s.depth, b, page) && Covers(s.depth, c, page) && b.level <= c.level
    ensures b == c
  {
    if b.level < c.level {
      AncestorSplit(s, live, c, b.level);
      AroundAround(Block(s.depth, page), c.level, b.level);
    }
  }

  /** The free blocks and the live ones tile the region: every page lies in exactly one. */
  lemma EveryPageInExactlyOneBlock(s: Heap, page: nat)
    requires Partition(s) && page < Pow2(s.depth)
    ensures exists b :: Leaf(s, Live(s), b) && Covers(s.depth, b, page)
    ensures forall b, c :: Leaf(s, Live(s), b) && Covers(s.depth, b, page) && Leaf(s, Live(s), c) && Covers(s.depth, c, page) ==> b == c
    ensures forall b :: IsFree(s, b) ==> b !in Live(s)
  {
    AroundInRange(Block(s.depth, page), 0);
    var w := CoverBelow(s, Live(s), ROOT, page);
    forall b, c | Leaf(s, Live(s), b) && Covers(s.depth, b, page) && Leaf(s, Live(s), c) && Covers(s.depth, c, page)
      ensures b == c
    {
      if b.level <= c.level {
        CoverUnique(s, Live(s), b, c, page);
      } else {
        CoverUnique(s, Live(s), c, b, page);
      }
    }
  }

  /** Scanning the split bitmap from the deepest level recovers the level a block was taken at. */
  lemma {:induction false} LevelRecovered(s: Heap, live: set<Block>, b: Block, page: nat, n: nat)
    requires Tiling(s, live) && b in live && Covers(s.depth, b, page) && b.level <= n <= s.depth
    ensures LevelFrom(s, page, n) == b.level
    decreases n
  {
    assert Present(s, live, b);
    if n == 0 {
    } else if b.level < n {
      var x := BlockAt(s, page, n - 1);
      AroundAround(Block(s.depth, page), n - 1, b.level);
      if x in s.split {
        assert Present(s, live, x);
        if b.level < n - 1 {
          AncestorSplit(s, live, x, b.level);
        }
        assert false;
      }
      LevelRecovered(s, live, b, page, n - 1);
    } else {
      AroundParent(Block(s.depth, page), n - 1);
      assert Parent(b) in s.split;
    }
  }

  // ----- allocation -----

  lemma {:induction false} SplitDownKeeps(s: Heap, live: set<Block>, b: Block, level: nat)
    requires Tiling(s, live) && b in live && b.level <= level <= s.depth
    ensures var (t, c) := SplitDown(s, b, level);
      && Tiling(t, live - {b} + {c}) && c == FirstIn(b, level)
      && (Coalesced(s) ==> Coalesced(t)) && (MergeBits(s) ==> MergeBits(t))
    decreases level - b.level
  {
    if b.level == level {
      assert live - {b} + {b} == live;
    } else {
      var t := s.(split := Toggle(s.split, b), merge := Toggle(s.merge, b), free := PushBack(s.free, Right(b)));
      SplitTree(s.depth, s.free, s.split, live, b);
      SplitBits(s.depth, s.free, s.split, live, s.merge, b);
      var live' := live - {b} + {Left(b)};
      SplitDownKeeps(t, live', Left(b), level);
      var (u, c) := SplitDown(t, Left(b), level);
      assert live' - {Left(b)} + {c} == live - {b} + {c};
    }
  }

  lemma {:induction false} SplitDownBreaks(s: Heap, live: set<Block>, b: Block, level: nat)
    requires Tiling(s, live) && b in live && b.level <= level <= s.depth && b.level > 0
    requires Parent(b) in s.merge && !IsFree(s, b) && !IsFree(s, Sibling(b))
    ensures !MergeBits(SplitDown(s, b, level).0)
    decreases level - b.level
  {
    var (t, c) := SplitDown(s, b, level);
    SplitDownUntouched(s, live, b, level, Parent(b));
    ParentSibling(b);
  }

  /** Splitting below `b` leaves the bits and free blocks above it alone. */
  lemma {:induction false} SplitDownUntouched(s: Heap, live: set<Block>, b: Block, level: nat, p: Block)
    requires Tiling(s, live) && b in live && b.level <= level <= s.depth && p.level < b.level
    ensures var t := SplitDown(s, b, level).0;
      && (p in t.merge <==> p in s.merge)
      && (forall c: Block :: c.level <= b.level ==> (IsFree(t, c) <==> IsFree(s, c)))
    decreases level - b.level
  {
    if b.level < level {
      var t := s.(split := Toggle(s.split, b), merge := Toggle(s.merge, b), free := PushBack(s.free, Right(b)));
      SplitTree(s.depth, s.free, s.split, live, b);
      PushFree(s.depth, s.free, Right(b));
      SplitDownUntouched(t, live - {b} + {Left(b)}, Left(b), level, p);
    }
  }

  lemma TakeIsDrop(s: Heap, i: nat)
    requires i < |s.free| && s.free[i] != []
    ensures var b := Block(i, s.free[i][0]);
      IsFree(s, b) && s.free[i := s.free[i][1..]] == RemoveFree(s.free, b)
  {
    assert s.free[i] == [s.free[i][0]] + s.free[i][1..];
  }

  /** The `n` pages from the block's first one all lie in the block and nobody holds them. */
  ghost predicate FreshPages(s: Heap, b: Block, n: nat)
    requires b.level <= s.depth
  {
    forall p {:trigger Covers(s.depth, b, p)} :: FirstPage(s, b) <= p < FirstPage(s, b) + n ==> Covers(s.depth, b, p) && p !in s.owner
  }

  lemma {:induction false} ClaimMap(owner: map<nat, Block>, b: Block, first: nat, n: nat)
    ensures forall p :: p in Claim(owner, b, first, n) <==> p in owner || first <= p < first + n
    ensures forall p :: first <= p < first + n ==> Claim(owner, b, first, n)[p] == b
    ensures forall p :: p in owner && !(first <= p < first + n) ==> Claim(owner, b, first, n)[p] == owner[p]
  {
    if n > 0 {
      ClaimMap(owner, b, first, n - 1);
    }
  }

  lemma ClaimValues(owner: map<nat, Block>, b: Block, first: nat, n: nat)
    requires n > 0 && forall p :: first <= p < first + n ==> p !in owner
    ensures Claim(owner, b, first, n).Values == owner.Values + {b}
  {
    ClaimMap(owner, b, first, n);
    var c := Claim(owner, b, first, n);
    assert c[first] == b;
    forall v | v in owner.Values
      ensures v in c.Values
    {
      var p :| p in owner && owner[p] == v;
      assert c[p] == v;
    }
  }

  /** The shape of a grant: block `a` was free, `b` is its left spine at the requested level. */
  lemma GrantShape(s: Heap, requested: nat, repaired: bool, a: Block)
    requires Partition(s) && requested <= s.depth && FindLevel(s.free, requested) >= 0
    requires a.level == FindLevel(s.free, requested) && a.index == s.free[a.level][0]
    ensures IsFree(s, a) && Take(s, a.level, requested, repaired).depth == s.depth
    ensures var (u, b) := SplitDown(Take(s, a.level, requested, repaired), a, requested);
      && u.depth == s.depth && u.owner == s.owner && |u.free| == s.depth + 1
      && Tiling(u, Live(s) + {b}) && Apart(s.depth, b, Live(s)) && b !in Live(s) && b.level == requested
      && Around(b, a.level) == a
  {
    var live := Live(s);
    var _, t := TakenTiling(s, requested, repaired);
    SplitDownKeeps(t, live + {a}, a, requested);
    var b := SplitDown(t, a, requested).1;
    assert live + {a} - {a} + {b} == live + {b};
    SpineApart(t, live, a, b);
    SpineAncestor(a, requested);
    FreshLeaf(t, live, a, b);
  }

  /** Allocation, with either guard, keeps the partition: the block is the smallest power of two
      that fits, comes out of a free block, and its pages were nobody's. */
  lemma AllocateKeepsPartition(s: Heap, n: nat, repaired: bool)
    requires Partition(s) && n > 0 && Allocate(s, n, repaired).Granted?
    ensures var Granted(t, b) := Allocate(s, n, repaired);
      && Partition(t) && t.depth == s.depth
      && Live(t) == Live(s) + {b} && b !in Live(s)
      && b.level <= s.depth && n <= Pow2(s.depth - b.level) && (b.level == s.depth || Pow2(s.depth - b.level - 1) < n)
      && FreshPages(s, b, n)
      && t.owner == Claim(s.owner, b, FirstPage(s, b), n)
      && (forall p :: p in t.owner <==> p in s.owner || FirstPage(s, b) <= p < FirstPage(s, b) + n)
      && (forall p :: p in t.owner ==> t.owner[p] == if p in s.owner then s.owner[p] else b)
      && (exists a :: IsFree(s, a) && a.level <= b.level && Around(b, a.level) == a)
  {
    var requested := Requested(s, n);
    var i := FindLevel(s.free, requested);
    var a := Block(i, s.free[i][0]);
    GrantShape(s, requested, repaired, a);
    var (u, b) := SplitDown(Take(s, i, requested, repaired), a, requested);
    FreshPagesOf(s, b, n);
    ClaimMap(s.owner, b, FirstPage(s, b), n);
    assert forall p :: FirstPage(s, b) <= p < FirstPage(s, b) + n ==> Covers(s.depth, b, p) && p !in s.owner;
    ClaimedHeap(s, u, b, n);
  }

  /** Allocation fails only when every free block is smaller than the request. */
  lemma OutOfMemoryMeansNoRoom(s: Heap, n: nat, repaired: bool)
    requires ListsOk(s) && n > 0
    ensures Allocate(s, n, repaired).OutOfMemory? <==> forall b :: IsFree(s, b) ==> Pow2(s.depth - b.level) < n
  {
    var requested := Requested(s, n);
    var i := FindLevel(s.free, requested);
    if i < 0 {
      forall b | IsFree(s, b)
        ensures Pow2(s.depth - b.level) < n
      {
        assert b.level > requested;
        Pow2Monotone(s.depth - b.level, OrderFrom(0, n) - 1);
      }
    } else {
      var b := Block(i, s.free[i][0]);
      assert IsFree(s, b);
      Pow2Monotone(OrderFrom(0, n), s.depth - i);
    }
  }

  lemma TakenTiling(s: Heap, requested: int, repaired: bool) returns (a: Block, t: Heap)
    requires Partition(s) && requested <= s.depth && FindLevel(s.free, requested) >= 0
    ensures var i := FindLevel(s.free, requested);
      a == Block(i, s.free[i][0]) && t == Take(s, i, requested, repaired)
    ensures Tiling(t, Live(s) + {a}) && a !in Live(s) && IsFree(s, a) && InRange(s, a)
    ensures t.split == s.split && t.owner == s.owner && t.depth == s.depth
    ensures t.free == RemoveFree(s.free, a)
  {
    var i := FindLevel(s.free, requested);
    a, t := Block(i, s.free[i][0]), Take(s, i, requested, repaired);
    TakeIsDrop(s, i);
    TakeTree(s.depth, s.free, s.split, Live(s), a);
  }

  /** No page of `b` is covered by a block of `live`. */
  ghost predicate Apart(depth: nat, b: Block, live: set<Block>)
  {
    forall c, p {:trigger Covers(depth, b, p), Covers(depth, c, p)} :: c in live && Covers(depth, b, p) ==> !Covers(depth, c, p)
  }

  lemma SpineApart(t: Heap, live: set<Block>, a: Block, b: Block)
    requires Tiling(t, live + {a}) && a !in live
    requires a.level <= b.level <= t.depth && b == FirstIn(a, b.level)
    ensures Apart(t.depth, b, live)
  {
    forall c, p | c in live && Covers(t.depth, b, p)
      ensures !Covers(t.depth, c, p)
    {
      FreshBlock(t, live, a, b, c, p);
    }
  }

  lemma FreshPagesOf(s: Heap, b: Block, n: nat)
    requires OwnersOk(s) && Apart(s.depth, b, Live(s))
    requires b.level <= s.depth && n <= Pow2(s.depth - b.level)
    ensures FreshPages(s, b, n)
  {
    var first := FirstPage(s, b);
    forall p | first <= p < first + n
      ensures Covers(s.depth, b, p) && p !in s.owner
    {
      PagesOfBlock(b, s.depth, p - first);
      if p in s.owner {
        var c := s.owner[p];
        assert c in Live(s) && Covers(s.depth, b, p) && Covers(s.depth, c, p);
        assert false;
      }
    }
  }

  lemma {:induction false} SpineAncestor(a: Block, l: nat)
    requires a.level <= l
    ensures Around(FirstIn(a, l), a.level) == a
    decreases l - a.level
  {
    if a.level < l {
      SpineAncestor(Left(a), l);
      ChildParent(a);
      AroundParent(FirstIn(a, l), a.level);
    }
  }

  /** A page of the block in hand belongs to no live block. */
  lemma FreshBlock(t: Heap, live: set<Block>, a: Block, b: Block, c: Block, page: nat)
    requires Tiling(t, live + {a}) && a !in live && c in live
    requires a.level <= b.level <= t.depth && b == FirstIn(a, b.level)
    requires Covers(t.depth, b, page)
    ensures !Covers(t.depth, c, page)
  {
    SpineAncestor(a, b.level);
    AroundAround(Block(t.depth, page), b.level, a.level);
    assert Covers(t.depth, a, page);
    if !Covers(t.depth, c, page) {
    } else if a.level <= c.level {
      CoverUnique(t, live + {a}, a, c, page);
    } else {
      CoverUnique(t, live + {a}, c, a, page);
    }
  }

  lemma FreshLeaf(t: Heap, live: set<Block>, a: Block, b: Block)
    requires Tiling(t, live + {a}) && a !in live
    requires a.level <= b.level <= t.depth && b == FirstIn(a, b.level)
    ensures b !in live
  {
    if b in live {
      PagesOfBlock(b, t.depth, 0);
      FreshBlock(t, live, a, b, b, FirstIn(b, t.depth).index);
    }
  }

  lemma ClaimedOwners(s: Heap, b: Block, n: nat, t: Heap)
    requires OwnersOk(s) && n > 0 && b.level <= s.depth && FreshPages(s, b, n)
    requires t.depth == s.depth && t.owner == Claim(s.owner, b, FirstPage(s, b), n)
    ensures OwnersOk(t) && Live(t) == Live(s) + {b}
  {
    var first := FirstPage(s, b);
    forall p | first <= p < first + n
      ensures p !in s.owner
    {
      assert Covers(s.depth, b, p) && p !in s.owner;
    }
    ClaimMap(s.owner, b, first, n);
    ClaimValues(s.owner, b, first, n);
    forall p | p in t.owner
      ensures t.owner[p].level <= t.depth && BlockAt(t, p, t.owner[p].level) == t.owner[p]
    {
      assert first <= p < first + n ==> Covers(s.depth, b, p);
    }
  }

  lemma ClaimedHeap(s: Heap, u: Heap, b: Block, n: nat)
    requires OwnersOk(s) && u.depth == s.depth && u.owner == s.owner && n > 0 && b.level <= s.depth
    requires Tiling(u, Live(s) + {b})
    requires FreshPages(s, b, n)
    ensures var t := u.(owner := Claim(u.owner, b, FirstPage(s, b), n));
      Partition(t) && Live(t) == Live(s) + {b}
  {
    var t := u.(owner := Claim(u.owner, b, FirstPage(s, b), n));
    ClaimedOwners(s, b, n, t);
  }

  // ----- the merge bits over an allocation -----

  /** With the repaired guard an allocation keeps the whole invariant; as written it keeps the
      merge bits exactly when the block comes from the requested list or is the whole region. */
  lemma AllocateKeepsInvIff(s: Heap, n: nat, repaired: bool)
    requires Inv(s) && n > 0 && Allocate(s, n, repaired).Granted?
    ensures var level := FindLevel(s.free, Requested(s, n));
      Inv(Allocate(s, n, repaired).heap) <==> (repaired || level == Requested(s, n) || level == 0)
  {
    var requested := Requested(s, n);
    AllocateKeepsPartition(s, n, repaired);
    var i := FindLevel(s.free, requested);
    var a := Block(i, s.free[i][0]);
    GrantShape(s, requested, repaired, a);
    TakenBits(s, requested, repaired, a);
    var t := Take(s, a.level, requested, repaired);
    if UpdatesParent(a.level, requested, repaired) || a.level == 0 {
      SplitDownKeeps(t, Live(s) + {a}, a, requested);
    } else {
      SplitDownBreaks(t, Live(s) + {a}, a, requested);
    }
  }

  lemma TakenBits(s: Heap, requested: nat, repaired: bool, a: Block)
    requires Inv(s) && requested <= s.depth && FindLevel(s.free, requested) >= 0
    requires a.level == FindLevel(s.free, requested) && a.index == s.free[a.level][0]
    ensures var t := Take(s, a.level, requested, repaired);
      && Tiling(t, Live(s) + {a}) && Coalesced(t) && !IsFree(t, a)
      && (UpdatesParent(a.level, requested, repaired) || a.level == 0 ==> MergeBits(t))
      && (!UpdatesParent(a.level, requested, repaired) && a.level > 0 ==>
            Parent(a) in t.merge && !IsFree(t, Sibling(a)))
  {
    var a', t := TakenTiling(s, requested, repaired);
    assert a' == a;
    TakeBits(s.depth, s.free, s.split, Live(s), s.merge, a);
    DropFree(s.depth, s.free, a);
    if a.level > 0 {
      ParentSibling(a);
    }
  }

  // ----- release -----

  lemma {:induction false} ReleaseKeeps(s: Heap, live: set<Block>, b: Block)
    requires Tiling(s, live) && MergeBits(s) && Coalesced(s) && b in live && b.level <= s.depth
    ensures var t := Release(s, b);
      Tiling(t, live - {b}) && MergeBits(t) && Coalesced(t) && t.owner == s.owner && t.depth == s.depth
    decreases b.level
  {
    if b.level == 0 {
      PutTree(s.depth, s.free, s.split, live, b);
      PutBits(s.depth, s.free, s.split, live, s.merge, b);
    } else {
      var p := Parent(b);
      SiblingBit(s, live, b);
      var merge := Toggle(s.merge, p);
      if p in merge {
        PutTree(s.depth, s.free, s.split, live, b);
        PutBits(s.depth, s.free, s.split, live, s.merge, b);
      } else {
        var t := s.(merge := merge, split := Toggle(s.split, p), free := RemoveFree(s.free, Sibling(b)));
        MergeTree(s.depth, s.free, s.split, live, b);
        MergeBitsStep(s.depth, s.free, s.split, live, s.merge, b);
        var live' := live - {b} + {p};
        ReleaseKeeps(t, live', p);
        assert live' - {p} == live - {b};
      }
    }
  }

  lemma SiblingBit(s: Heap, live: set<Block>, b: Block)
    requires Tiling(s, live) && MergeBits(s) && b in live && b.level > 0
    ensures Parent(b) in s.merge <==> IsFree(s, Sibling(b))
  {
    assert Present(s, live, b);
    ParentSibling(b);
    assert Parent(b) in s.split;
  }

  // ----- freeing pages -----

  lemma HeldValues(owner: map<nat, Block>, page: nat)
    requires page in owner
    ensures var rest := owner - {page};
      && (Held(rest, owner[page]) != {} ==> rest.Values == owner.Values)
      && (Held(rest, owner[page]) == {} ==> rest.Values == owner.Values - {owner[page]})
  {
    var rest, b := owner - {page}, owner[page];
    forall c | c in owner.Values && c != b
      ensures c in rest.Values
    {
      var p :| p in owner && owner[p] == c;
      assert rest[p] == c;
    }
    forall c | c in rest.Values
      ensures c in owner.Values
    {
      var p :| p in rest && rest[p] == c;
      assert owner[p] == c;
    }
    if Held(rest, b) != {} {
      var p :| p in Held(rest, b);
      assert rest[p] == b;
    }
  }

  /** Freeing a page keeps the invariant, takes exactly that page away, and merges its block
      back exactly when it was the last page of the grant. */
  lemma FreePageKeepsInv(s: Heap, page: nat)
    requires Inv(s)
    ensures page in s.owner ==> s.owner[page].level <= s.depth
    ensures var t := FreePage(s, page);
      Inv(t) && t.depth == s.depth && t.owner == s.owner - {page}
  {
    if page in s.owner {
      var b := s.owner[page];
      var s1 := s.(owner := s.owner - {page});
      HeldValues(s.owner, page);
      if Held(s1.owner, b) == {} {
        var first := FirstPage(s, b);
        assert b in s.owner.Values;
        PagesOfBlock(b, s.depth, 0);
        LevelRecovered(s1, Live(s), b, first, s1.depth);
        assert BlockAt(s1, first, LevelOf(s1, first)) == b;
        ReleaseKeeps(s1, Live(s), b);
      }
    } else {
      assert s.owner - {page} == s.owner;
    }
  }

  /** The level scan gives back the level of the grant for every page of it, not only the first. */
  lemma LevelOfHeldPage(s: Heap, page: nat)
    requires Partition(s) && page in s.owner
    ensures LevelOf(s, page) == s.owner[page].level
  {
    assert s.owner[page] in s.owner.Values;
    LevelRecovered(s, Live(s), s.owner[page], page, s.depth);
  }

  // ----- everything freed -----

  lemma {:induction false} NothingLiveNothingSplit(s: Heap, b: Block)
    requires Tiling(s, {}) && Coalesced(s)
    ensures b !in s.split
    decreases s.depth - b.level
  {
    if b in s.split {
      assert Present(s, {}, Left(b)) && Present(s, {}, Right(b));
      NothingLiveNothingSplit(s, Left(b));
      NothingLiveNothingSplit(s, Right(b));
    }
  }

  /** Once every page is back, the allocator is in its initial state. */
  lemma AllFreedIsInitial(s: Heap)
    requires Inv(s) && s.owner == map[]
    ensures s == Initial(s.depth)
  {
    assert Live(s) == {};
    forall b
      ensures b !in s.split && b !in s.merge
    {
      NothingLiveNothingSplit(s, b);
    }
    assert s.split == {} && s.merge == {};
    assert IsFree(s, ROOT);
    forall l | 0 <= l <= s.depth
      ensures s.free[l] == Initial(s.depth).free[l]
    {
      forall i | 0 <= i < |s.free[l]|
        ensures Block(l, s.free[l][i]) == ROOT
      {
        OnlyRootFree(s, Block(l, s.free[l][i]));
      }
      AtMostOne(s.free[l], 0);
      if l == 0 {
        assert 0 in s.free[l];
      } else if s.free[l] == [0] {
        OnlyRootFree(s, Block(l, 0));
        assert false;
      }
    }
    assert s.free == Initial(s.depth).free;
  }

  lemma OnlyRootFree(s: Heap, b: Block)
    requires Tiling(s, {}) && s.split == {} && IsFree(s, b)
    ensures b == ROOT
  {
    assert Present(s, {}, b);
    assert b.level > 0 ==> Parent(b) in s.split;
  }

  lemma Distinct(xs: seq<nat>, i: nat, j: nat)
    requires NoDup(xs) && i < j < |xs|
    ensures xs[i] != xs[j]
  {
  }

  lemma AtMostOne(xs: seq<nat>, x: nat)
    requires NoDup(xs) && forall i :: 0 <= i < |xs| ==> xs[i] == x
    ensures xs == [] || xs == [x]
  {
    if |xs| > 1 {
      Distinct(xs, 0, 1);
      assert false;
    }
  }

  lemma InitialInv(depth: nat)
    ensures Inv(Initial(depth))
  {
    var s := Initial(depth);
    assert s.free[0] == [0];
    assert forall b :: IsFree(s, b) <==> b == ROOT;
    assert Live(s) == {};
  }

  // ----- runs -----

  datatype Op = Alloc(numPages: nat) | Free(page: nat)

  function Step(s: Heap, op: Op, repaired: bool): (t: Heap)
    requires |s.free| == s.depth + 1
    requires op.Free? && op.page in s.owner ==> s.owner[op.page].level <= s.depth
  {
    match op
    case Alloc(n) =>
      (match Allocate(s, n, repaired)
       case OutOfMemory => s
       case Granted(t, _) => t)
    case Free(page) => FreePage(s, page)
  }

  /** The states a run visits, one before each operation and one at the end. */
  ghost predicate IsRun(states: seq<Heap>, ops: seq<Op>, repaired: bool)
  {
    && |states| == |ops| + 1
    && (forall op :: op in ops && op.Alloc? ==> op.numPages > 0)
    && forall i :: 0 <= i < |ops| ==>
         && |states[i].free| == states[i].depth + 1
         && (ops[i].Free? && ops[i].page in states[i].owner ==> states[i].owner[ops[i].page].level <= states[i].depth)
         && states[i + 1] == Step(states[i], ops[i], repaired)
  }

  lemma StepKeepsInv(s: Heap, op: Op)
    requires Inv(s) && (op.Alloc? ==> op.numPages > 0)
    ensures op.Free? && op.page in s.owner ==> s.owner[op.page].level <= s.depth
    ensures Inv(Step(s, op, true)) && Step(s, op, true).depth == s.depth
  {
    match op
    case Alloc(n) =>
      if Allocate(s, n, true).Granted? {
        AllocateKeepsInvIff(s, n, true);
        AllocateKeepsPartition(s, n, true);
      }
    case Free(page) => FreePageKeepsInv(s, page);
  }

  /** Over every run of the repaired allocator the lists, bitmaps and trackers describe one
      partition of the region, and a run that has returned every page is back at the start. */
  lemma {:induction false} EveryRunKeepsInv(states: seq<Heap>, ops: seq<Op>, depth: nat)
    requires IsRun(states, ops, true) && states[0] == Initial(depth)
    ensures forall i :: 0 <= i < |states| ==> Inv(states[i]) && states[i].depth == depth
    ensures forall i :: 0 <= i < |states| && states[i].owner == map[] ==> states[i] == Initial(depth)
  {
    InitialInv(depth);
    var n := 0;
    while n < |ops|
      invariant 0 <= n <= |ops|
      invariant forall i :: 0 <= i <= n ==> Inv(states[i]) && states[i].depth == depth
    {
      StepKeepsInv(states[n], ops[n]);
      n := n + 1;
    }
    forall i | 0 <= i < |states| && states[i].owner == map[]
      ensures states[i] == Initial(depth)
    {
      AllFreedIsInitial(states[i]);
    }
  }

  /** As written, a run that only allocates keeps the partition, and every page handed out can
      find its grant's level in the split bitmap. */
  lemma {:induction false} AllocationRunKeepsPartition(states: seq<Heap>, ops: seq<Op>, depth: nat)
    requires IsRun(states, ops, false) && states[0] == Initial(depth)
    requires forall op :: op in ops ==> op.Alloc?
    ensures forall i :: 0 <= i < |states| ==> Partition(states[i]) && states[i].depth == depth
    ensures forall i, p :: 0 <= i < |states| && p in states[i].owner ==> LevelOf(states[i], p) == states[i].owner[p].level
  {
    InitialInv(depth);
    var n := 0;
    while n < |ops|
      invariant 0 <= n <= |ops|
      invariant forall i :: 0 <= i <= n ==> Partition(states[i]) && states[i].depth == depth
    {
      assert ops[n] in ops;
      if Allocate(states[n], ops[n].numPages, false).Granted? {
        AllocateKeepsPartition(states[n], ops[n].numPages, false);
      }
      n := n + 1;
    }
    forall i, p | 0 <= i < |states| && p in states[i].owner
      ensures LevelOf(states[i], p) == states[i].owner[p].level
    {
      LevelOfHeldPage(states[i], p);
    }
  }

  /** What a caller can test before an allocation as written: the requested list has a block,
      or the whole region is still one free block. */
  predicate SafeRequest(s: Heap, op: Op)
    requires |s.free| == s.depth + 1
  {
    op.Alloc? ==>
      var level := FindLevel(s.free, Requested(s, op.numPages));
      level == Requested(s, op.numPages) || level <= 0
  }

  /** As written, the invariant survives a run exactly as far as its requests are safe. */
  lemma {:induction false} WrittenRunKeepsInvIffSafe(states: seq<Heap>, ops: seq<Op>, depth: nat)
    requires IsRun(states, ops, false) && states[0] == Initial(depth)
    ensures (forall i :: 0 <= i < |states| ==> Inv(states[i])) <==> (forall i :: 0 <= i < |ops| ==> SafeRequest(states[i], ops[i]))
  {
    InitialInv(depth);
    var n := 0;
    while n < |ops|
      invariant 0 <= n <= |ops|
      invariant forall i :: 0 <= i <= n ==> Inv(states[i])
      invariant forall i :: 0 <= i < n ==> SafeRequest(states[i], ops[i])
    {
      var s, op := states[n], ops[n];
      assert op in ops;
      assert states[n + 1] == Step(s, op, false);
      if op.Alloc? {
        if Allocate(s, op.numPages, false).Granted? {
          AllocateKeepsInvIff(s, op.numPages, false);
        }
        if !SafeRequest(s, op) {
          assert !Inv(states[n + 1]);
          return;
        }
      } else {
        FreePageKeepsInv(s, op.page);
      }
      n := n + 1;
    }
  }

  // ----- the departure of the guard as written -----

  const TWO_HELD: map<nat, Block> := map[0 := Block(1, 0), 1 := Block(1, 0)]

  /** Four pages: allocate two, allocate one, free that one. The stale bit of the root lets the
      release merge all the way up, so the whole region is free while two pages are held.
      `s0`, `s1` and `s2` are the heaps of that run, the last step first. */
  lemma GuardAsWrittenFreesHeldPages(s0: Heap, s1: Heap, s2: Heap)
    requires s0 == Initial(2)
    requires s1 == Heap(2, [[], [1], []], {ROOT}, {ROOT}, TWO_HELD)
    requires s2 == Heap(2, [[], [], [3]], {ROOT, Block(1, 1)}, {ROOT, Block(1, 1)}, TWO_HELD[2 := Block(2, 2)])
    ensures FreePage(s2, 2).owner == TWO_HELD && IsFree(FreePage(s2, 2), ROOT) && !Partition(FreePage(s2, 2))
    ensures Allocate(s1, 1, false) == Granted(s2, Block(2, 2))
    ensures Allocate(s0, 2, false) == Granted(s1, Block(1, 0))
  {
    DepartureFirst(s0, s1);
    DepartureSecond(s1, s2);
    DepartureRelease(s2);
  }

  lemma DepartureRequest(s0: Heap)
    requires s0 == Initial(2)
    ensures Requested(s0, 2) == 1
    ensures FindLevel(s0.free, 1) == 0
    ensures FirstPage(s0, Block(1, 0)) == 0
  {
    assert OrderFrom(0, 2) == 1;
    assert s0.free == [[0], [], []];
  }

  lemma DepartureClaim()
    ensures Claim(map[], Block(1, 0), 0, 2) == TWO_HELD
  {
    assert Claim(map[], Block(1, 0), 0, 1) == map[0 := Block(1, 0)];
  }

  lemma DepartureFirst(s0: Heap, s1: Heap)
    requires s0 == Initial(2)
    requires s1 == Heap(2, [[], [1], []], {ROOT}, {ROOT}, TWO_HELD)
    ensures Allocate(s0, 2, false) == Granted(s1, Block(1, 0))
  {
    hide SplitDown, Requested, FindLevel, Claim, FirstPage;
    DepartureRequest(s0);
    DepartureClaim();
    assert s0.free == [[0], [], []];
    var t0 := s0.(free := [[], [], []]);
    assert [0][1..] == [];
    assert Take(s0, 0, 1, false) == t0;
    SplitDownOnce(t0, ROOT);
    assert [] + [1] == [1] && PushBack(t0.free, Block(1, 1)) == s1.free;
  }

  lemma DepartureSecond(s1: Heap, s2: Heap)
    requires s1 == Heap(2, [[], [1], []], {ROOT}, {ROOT}, TWO_HELD)
    requires s2 == Heap(2, [[], [], [3]], {ROOT, Block(1, 1)}, {ROOT, Block(1, 1)}, TWO_HELD[2 := Block(2, 2)])
    ensures Allocate(s1, 1, false) == Granted(s2, Block(2, 2))
  {
    assert OrderFrom(0, 1) == 0;
    assert Requested(s1, 1) == 2 && FindLevel(s1.free, 2) == 1;
    var t1 := Take(s1, 1, 2, false);
    assert [1][1..] == [] && t1.free == [[], [], []];
    SplitDownOnce(t1, Block(1, 1));
    assert FirstIn(Block(2, 2), 2) == Block(2, 2);
    assert Claim(s1.owner, Block(2, 2), 2, 1) == s2.owner;
    assert [] + [3] == [3] && PushBack(t1.free, Block(2, 3)) == s2.free;
  }

  lemma SplitDownOnce(s: Heap, b: Block)
    requires |s.free| == s.depth + 1 && b.level + 1 <= s.depth
    ensures SplitDown(s, b, b.level + 1) ==
      (s.(split := Toggle(s.split, b), merge := Toggle(s.merge, b), free := PushBack(s.free, Right(b))), Left(b))
  {
    var t := s.(split := Toggle(s.split, b), merge := Toggle(s.merge, b), free := PushBack(s.free, Right(b)));
    assert SplitDown(t, Left(b), b.level + 1) == (t, Left(b));
  }

  lemma DepartureRelease(s2: Heap)
    requires s2 == Heap(2, [[], [], [3]], {ROOT, Block(1, 1)}, {ROOT, Block(1, 1)}, TWO_HELD[2 := Block(2, 2)])
    ensures var s := FreePage(s2, 2);
      && s.owner == TWO_HELD && IsFree(s, ROOT) && !Partition(s)
  {
    var s3 := s2.(owner := s2.owner - {2});
    assert s3.owner == TWO_HELD;
    assert Held(s3.owner, Block(2, 2)) == {};
    assert FirstPage(s2, Block(2, 2)) == 2;
    assert Around(Block(2, 2), 1) == Block(1, 1);
    assert LevelOf(s3, 2) == 2 && BlockAt(s3, 2, 2) == Block(2, 2);
    var s4 := s3.(merge := {ROOT}, split := {ROOT}, free := [[], [], []]);
    assert Toggle(s3.merge, Block(1, 1)) == {ROOT} && Toggle(s3.split, Block(1, 1)) == {ROOT};
    assert RemoveFree(s3.free, Block(2, 3)) == [[], [], []] by { assert RemoveFirst([3], 3) == []; }
    assert Release(s3, Block(2, 2)) == Release(s4, Block(1, 1));
    var s5 := s4.(merge := {}, split := {});
    assert RemoveFree(s4.free, Block(1, 0)) == s4.free;
    assert Toggle(s4.merge, ROOT) == {} && Toggle(s4.split, ROOT) == {};
    assert Release(s4, Block(1, 1)) == Release(s5, ROOT);
    var s := FreePage(s2, 2);
    assert [] + [0] == [0] && PushBack(s5.free, ROOT) == [[0], [], []];
    assert s == s5.(free := [[0], [], []]);
    assert s.owner[0] == Block(1, 0) && Block(1, 0) in Live(s);
    assert Present(s, Live(s), Block(1, 0)) && Parent(Block(1, 0)) !in s.split;
  }
}
