/** The directory with block objects and queues rotated in place. */
module DirectoryState {
  import opened CacheDirectory
  import Powers

  class Block {
    const setID: nat
    const wayID: nat
    const cacheAddress: nat
    var pid: nat
    var tag: nat
    var isValid: bool
    var isLocked: bool

    constructor (setID: nat, wayID: nat, cacheAddress: nat)
      ensures this.setID == setID && this.wayID == wayID && this.cacheAddress == cacheAddress
      ensures !isValid && !isLocked
    {
      this.setID, this.wayID, this.cacheAddress := setID, wayID, cacheAddress;
      pid, tag, isValid, isLocked := 0, 0, false, false;
    }

    function View(): State
      reads this
    {
      State(isValid, isLocked)
    }
  }

  ghost function States(q: seq<Block>): (r: seq<State>)
    reads q
    ensures |r| == |q| && forall i :: 0 <= i < |q| ==> r[i] == q[i].View()
  {
    if q == [] then [] else States(q[..|q| - 1]) + [q[|q| - 1].View()]
  }

  class CacheSet {
    const blocks: seq<Block>
    /** The array behind the queue's slice; copies of the set share it. */
    const lruQueue: array<Block>

    constructor (blocks: seq<Block>)
      requires blocks != []
      ensures this.blocks == blocks && lruQueue[..] == blocks && fresh(lruQueue)
    {
      this.blocks := blocks;
      var queue := new Block[|blocks|](i requires 0 <= i < |blocks| => blocks[i]);
      lruQueue := queue;
    }

    /** Remove the block by moving the later ones down, and put it at the end. */
    method Visit(block: Block)
      modifies lruQueue
      ensures lruQueue[..] == Visited(old(lruQueue[..]), block)
    {
      ghost var q := lruQueue[..];
      var n := lruQueue.Length;
      var i: nat := 0;
      while i < n && lruQueue[i] != block
        invariant i <= n && i <= IndexOf(q, block) && lruQueue[..] == q
      {
        i := i + 1;
      }
      assert i == IndexOf(q, block);
      if i < n {
        var k := i;
        while k + 1 < n
          invariant i <= k < n
          invariant forall j :: 0 <= j < i || k < j < n ==> lruQueue[j] == q[j]
          invariant forall j :: i <= j < k ==> lruQueue[j] == q[j + 1]
        {
          lruQueue[k] := lruQueue[k + 1];
          k := k + 1;
        }
        lruQueue[n - 1] := block;
        forall j | 0 <= j < n
          ensures lruQueue[j] == Visited(q, block)[j]
        {
          VisitedAt(q, block, j);
        }
      }
    }

    /** `LRUVictimFinder.FindVictim`. */
    method FindVictim() returns (block: Block)
      requires lruQueue.Length > 0
      ensures |States(lruQueue[..])| == lruQueue.Length
      ensures block == lruQueue[Victim(States(lruQueue[..]))]
    {
      ghost var states := States(lruQueue[..]);
      var i: nat := 0;
      while i < lruQueue.Length
        invariant i <= lruQueue.Length && i <= FirstWith(states, true)
      {
        assert states[i] == lruQueue[i].View();
        if !lruQueue[i].isValid && !lruQueue[i].isLocked {
          return lruQueue[i];
        }
        i := i + 1;
      }
      i := 0;
      while i < lruQueue.Length
        invariant i <= lruQueue.Length && i <= FirstWith(states, false)
      {
        assert states[i] == lruQueue[i].View();
        if !lruQueue[i].isLocked {
          return lruQueue[i];
        }
        i := i + 1;
      }
      block := lruQueue[0];
    }

    /** The first valid block of the process with the tag. */
    method Lookup(pid: nat, tag: nat) returns (block: Block?)
      ensures block == null <==> forall i :: 0 <= i < |blocks| ==> !(blocks[i].isValid && blocks[i].tag == tag && blocks[i].pid == pid)
      ensures block != null ==> block in blocks && block.isValid && block.tag == tag && block.pid == pid
    {
      var i: nat := 0;
      while i < |blocks|
        invariant i <= |blocks|
        invariant forall j :: 0 <= j < i ==> !(blocks[j].isValid && blocks[j].tag == tag && blocks[j].pid == pid)
      {
        if blocks[i].isValid && blocks[i].tag == tag && blocks[i].pid == pid {
          return blocks[i];
        }
        i := i + 1;
      }
      block := null;
    }
  }

  class Directory {
    const numSets: nat
    const numWays: nat
    const blockSize: nat
    var sets: seq<CacheSet>

    constructor (numSets: nat, numWays: nat, blockSize: nat)
      requires numSets > 0 && numWays > 0 && blockSize > 0
      ensures this.numSets == numSets && this.numWays == numWays && this.blockSize == blockSize
      ensures |sets| == numSets && forall i {:trigger sets[i]} :: 0 <= i < numSets ==> IsReset(sets[i], i)
    {
      this.numSets, this.numWays, this.blockSize := numSets, numWays, blockSize;
      sets := [];
      new;
      Reset();
    }

    /** A set full of invalid, distinct blocks in way order, each at its place in the cache. */
    ghost predicate IsReset(s: CacheSet, i: nat)
      reads s, s.blocks, s.lruQueue
    {
      && |s.blocks| == numWays && s.lruQueue[..] == s.blocks && Distinct(s.blocks)
      && forall j {:trigger s.blocks[j]} :: 0 <= j < numWays ==>
           !s.blocks[j].isValid && !s.blocks[j].isLocked && s.blocks[j].setID == i && s.blocks[j].wayID == j
           && s.blocks[j].cacheAddress == CacheAddress(i, j, numWays, blockSize)
    }

    method Reset()
      requires numWays > 0
      modifies this`sets
      ensures |sets| == numSets && forall i {:trigger sets[i]} :: 0 <= i < numSets ==> IsReset(sets[i], i)
    {
      sets := [];
      var i: nat := 0;
      while i < numSets
        invariant i <= numSets && |sets| == i
        invariant forall k {:trigger sets[k]} :: 0 <= k < i ==> IsReset(sets[k], k)
      {
        var blocks: seq<Block> := [];
        ghost var before := sets;
        var j: nat := 0;
        while j < numWays
          invariant sets == before && forall k {:trigger sets[k]} :: 0 <= k < i ==> IsReset(sets[k], k)
          invariant j <= numWays && |blocks| == j && Distinct(blocks)
          invariant forall k {:trigger blocks[k]} :: 0 <= k < j ==>
            !blocks[k].isValid && !blocks[k].isLocked && blocks[k].setID == i && blocks[k].wayID == k
            && blocks[k].cacheAddress == CacheAddress(i, k, numWays, blockSize)
        {
          var block := new Block(i, j, CacheAddress(i, j, numWays, blockSize));
          blocks := blocks + [block];
          j := j + 1;
        }
        var s := new CacheSet(blocks);
        sets := sets + [s];
        i := i + 1;
      }
    }

    method Visit(block: Block)
      requires block.setID < |sets|
      modifies sets[block.setID].lruQueue
      ensures sets[block.setID].lruQueue[..] == Visited(old(sets[block.setID].lruQueue[..]), block)
    {
      sets[block.setID].Visit(block);
    }
  }
}
